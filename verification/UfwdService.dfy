/** The forwarder's statics over the heap tree: each atomic block of code takes the matching step of `Forwarder`. */
module UfwdService {
  import opened Keys
  import opened Words
  import opened Options
  import opened ChangeDetector
  import opened PublicPort
  import opened Forwarder
  import opened SessionTree

  class Service {
    const c: Config
    const sessions: Tree
    const detector: Detector
    var task: bool
    var sfd: int
    var quit: bool
    /** Where the server tasks are parked. */
    var servers: seq<Phase>
    /** `mport` of `src/hev-conf.c`. */
    var mport: string
    /** The state of the transition system that this object stands for. */
    ghost var s: State
    /** The descriptors open and the datagrams in hand. */
    ghost var n: Net

    /** The tree's map and its nodes are one and the same. */
    ghost predicate Indexed()
      reads sessions
    {
      && (forall key <- sessions.table :: sessions.table[key] in sessions.nodes && sessions.table[key].key == key)
      && (forall x <- sessions.nodes :: x.key in sessions.table && sessions.table[x.key] == x)
    }

    /** The table of `s` is the tree's map, read through the session objects other than `y`. */
    ghost predicate Mirrors(y: Session?)
      reads this`s, sessions, sessions.nodes
    {
      && s.table.Keys == sessions.table.Keys
      && (forall x <- sessions.nodes ::
            x.key in s.table && (x != y ==> s.table[x.key] == Sess(x.fd, x.active, x.started)))
    }

    /** The object stands for `s`, but for the flags of `y`. */
    ghost predicate StandsBut(y: Session?)
      reads this`s, this`task, this`sfd, this`quit, this`servers, this`mport
      reads detector, sessions, sessions.nodes
    {
      && sessions.Valid() && sessions.klen == c.klen && Indexed() && Mirrors(y)
      && s.task == task && s.sfd == sfd && s.quit == quit && s.servers == servers
      && s.pub == Pub(detector.Mem(), mport)
    }

    /** The object stands for `s`. */
    ghost predicate Stands()
      reads this`s, this`task, this`sfd, this`quit, this`servers, this`mport
      reads detector, sessions, sessions.nodes
    {
      StandsBut(null)
    }

    /** The object stands for a state that accounts for every open descriptor. */
    ghost predicate Valid()
      reads this, detector, sessions, sessions.nodes
    {
      Stands() && s.pub.memory.Valid() && Inv(c, s, n)
    }

    constructor (c: Config)
      ensures Valid() && s == INIT && n == QUIET && this.c == c && fresh(sessions) && fresh(detector)
    {
      this.c := c;
      sessions := new Tree(c.klen);
      detector := new Detector();
      task, sfd, quit, servers, mport, s, n := false, -1, false, [], "", INIT, QUIET;
      new;
      StartAgrees(c.e);
    }

    /** Writes the flags of one session. */
    method Set(x: Session, active: bool, started: bool)
      requires Stands() && x in sessions.nodes
      modifies this`s, x`active, x`started
      ensures Stands() && s == old(s).(table := old(s).table[x.key := Sess(x.fd, active, started)])
    {
      hide Tree.Valid, Detector.Mem, Indexed;
      x.active, x.started := active, started;
      Reflect(x);
    }

    /** Brings `s` up to date with one session. */
    ghost method Reflect(x: Session)
      requires StandsBut(x) && x in sessions.nodes
      modifies this`s
      ensures Stands() && s == old(s).(table := old(s).table[x.key := Sess(x.fd, x.active, x.started)])
    {
      hide Tree.Valid, Detector.Mem;
      s := s.(table := s.table[x.key := Sess(x.fd, x.active, x.started)]);
    }

    /** Moves a server task to its next yield. */
    method Park(i: nat, p: Phase)
      requires Stands() && i < |s.servers|
      modifies this`s, this`servers
      ensures Stands() && i < |old(s).servers| && s == old(s).(servers := old(s).servers[i := p])
    {
      hide Tree.Valid;
      servers := servers[i := p];
      s := s.(servers := servers);
    }

    /** Writes the statics. */
    method Statics(newTask: bool, newSfd: int, newQuit: bool, newServers: seq<Phase>)
      requires Stands()
      modifies this`s, this`task, this`sfd, this`quit, this`servers
      ensures Stands()
      ensures s == old(s).(task := newTask, sfd := newSfd, quit := newQuit, servers := newServers)
    {
      hide Tree.Valid;
      task, sfd, quit, servers := newTask, newSfd, newQuit, newServers;
      s := s.(task := newTask, sfd := newSfd, quit := newQuit, servers := newServers);
    }

    /** What the step of an event makes of the descriptors: no rule is broken, all stay accounted for. */
    lemma {:induction false} Next(ev: Event) returns (m: Net)
      requires Valid() && Allowed(c, s, ev) && Fresh(n, ev)
      ensures ApplyAll(n, Step(c, s, ev).1) == Some(m) && Inv(c, Step(c, s, ev).0, m)
      ensures Step(c, s, ev).0.pub.memory.Valid() && (Step(c, s, ev).1 == [] ==> m == n)
    {
      hide Stands, Step, Inv, Apply, ApplyAll;
      ApplyNone(n);
      StepKeeps(c, s, n, ev);
      MemoryStays(c, s, ev);
      m := ApplyAll(n, Step(c, s, ev).1).value;
    }

    lemma ConnectingIsNew(i: nat)
      requires Valid() && i < |s.servers| && s.servers[i].Connecting?
      ensures s.servers[i].key !in s.table && |s.servers[i].key| == c.klen
    {
      hide Stands, Port, Accounted;
      ServerKeyIsNew(c, s, i);
    }

    /** `session_find`, told in the terms of `s`. */
    method Look(saddr: Key) returns (x: Session?)
      requires Stands() && |saddr| == c.klen
      ensures x == null <==> saddr !in s.table
      ensures x != null ==>
                x in sessions.nodes && x.key == saddr && s.table[saddr] == Sess(x.fd, x.active, x.started)
    {
      hide Tree.Valid;
      x := sessions.Find(saddr);
    }

    /** The target port that `session_new` chooses. */
    method Target() returns (port: string)
      requires Stands()
      ensures port == Aim(c, s)
    {
      hide Tree.Valid;
      port := if c.fixed.Some? then c.fixed.value else mport;
    }

    /** The receive half of the server loop, down to `session_new`. */
    method Recv(i: nat, saddr: Key, data: Data) returns (x: Session?, acts: seq<Action>)
      requires Valid() && Allowed(c, s, Event.Recv(i, saddr, data))
      modifies this`servers, this`s, this`n, sessions.nodes`active, sessions.nodes`started
      ensures Valid() && (s, acts) == Step(c, old(s), Event.Recv(i, saddr, data)) && ApplyAll(old(n), acts) == Some(n)
      ensures x == null <==> saddr !in old(s.table)
    {
      hide Inv, ApplyAll, Stands, Step;
      ghost var m := Next(Event.Recv(i, saddr, data));
      RecvIs(c, s, i, saddr, data);
      x := Look(saddr);
      if x != null {
        acts := [Action.Received(saddr, data), SendTarget(x.fd, saddr, data)];
        Set(x, true, x.started);
      } else {
        acts := [Action.Received(saddr, data)];
        var aim := Target();
        Park(i, Resolving(saddr, data, aim));
      }
      n := m;
    }

    /** `session_new` up to its connect: the upstream socket, or none. */
    method Resolved(i: nat, fd: Option<nat>) returns (acts: seq<Action>)
      requires Valid() && Allowed(c, s, Event.Resolved(i, fd)) && Fresh(n, Event.Resolved(i, fd))
      modifies this`servers, this`s, this`n
      ensures Valid() && (s, acts) == Step(c, old(s), Event.Resolved(i, fd)) && ApplyAll(old(n), acts) == Some(n)
    {
      hide Inv, ApplyAll, Tree.Valid;
      ghost var m := Next(Event.Resolved(i, fd));
      var p := servers[i];
      match fd {
        case None =>
          acts := [Dropped(p.key, p.data)];
          Park(i, Receiving);
        case Some(f) =>
          acts := [Open(f, Upstream(p.key, p.aim)), AddFd(ServerTask, f)];
          Park(i, Connecting(p.key, p.data, f));
      }
      n := m;
    }

    /** Puts a new session into the tree. Its key is absent, so the descent of `session_add` ends. */
    method Insert(x: Session, turns: seq<Turn>)
      requires Stands() && |x.key| == c.klen && x.key !in s.table && x !in sessions.nodes
      requires forall t <- turns :: t.node in sessions.nodes
      modifies this`s, sessions, sessions.nodes`left, sessions.nodes`right, sessions.nodes`parent
      modifies x`left, x`right, x`parent
      ensures Stands() && s == old(s).(table := old(s).table[x.key := Sess(x.fd, x.active, x.started)])
    {
      hide Tree.Valid;
      sessions.Add(x, turns);
      s := s.(table := s.table[x.key := Sess(x.fd, x.active, x.started)]);
    }

    /** Makes a session that is in use. */
    method Admit(key: Key, fd: nat, turns: seq<Turn>)
      requires Stands() && |key| == c.klen && key !in s.table
      requires forall t <- turns :: t.node in sessions.nodes
      modifies this`s, sessions, sessions.nodes`left, sessions.nodes`right, sessions.nodes`parent
      ensures Stands() && s == old(s).(table := old(s).table[key := Sess(fd, true, false)])
    {
      hide Tree.Valid, Indexed, Mirrors;
      var x := new Session(key, fd);
      x.active := true;
      Insert(x, turns);
    }

    /** The rest of `session_new`, then `session_add`, the hand-over to the client task, send and `active = 1`. */
    method Connected(i: nat, ok: bool, turns: seq<Turn>) returns (acts: seq<Action>)
      requires Valid() && Allowed(c, s, Event.Connected(i, ok))
      requires forall t <- turns :: t.node in sessions.nodes
      modifies this`servers, this`s, this`n
      modifies sessions, sessions.nodes`left, sessions.nodes`right, sessions.nodes`parent
      ensures Valid() && (s, acts) == Step(c, old(s), Event.Connected(i, ok)) && ApplyAll(old(n), acts) == Some(n)
    {
      hide Inv, ApplyAll, Tree.Valid, Step;
      ghost var m := Next(Event.Connected(i, ok));
      ConnectingIsNew(i);
      ConnectedIs(c, s, i, ok);
      var p := servers[i];
      acts := if ok then [DelFd(ServerTask, p.fd), SendTarget(p.fd, p.key, p.data)]
              else [DelFd(ServerTask, p.fd), Close(p.fd), Dropped(p.key, p.data)];
      assert s.servers == servers;
      hide Stands;
      if ok {
        Admit(p.key, p.fd, turns);
      }
      Park(i, Receiving);
      n := m;
    }

    /** The first block of `client_task_entry`. */
    method ClientStart(x: Session) returns (acts: seq<Action>)
      requires Valid() && x in sessions.nodes && Allowed(c, s, Event.ClientStart(x.key))
      modifies this`s, this`n, x`active, x`started
      ensures Valid() && (s, acts) == Step(c, old(s), Event.ClientStart(x.key)) && ApplyAll(old(n), acts) == Some(n)
    {
      hide Inv, ApplyAll, Tree.Valid;
      ghost var m := Next(Event.ClientStart(x.key));
      acts := [AddFd(ClientTask(x.key), x.fd)];
      assert s.table[x.key].fd == x.fd;
      assert Step(c, s, Event.ClientStart(x.key)) == (s.(table := s.table[x.key := Sess(x.fd, false, true)]), acts);
      hide Stands, Step;
      Set(x, false, true);
      n := m;
    }

    /** `session_del` and `session_free` at the end of a client task. */
    method Drop(x: Session, turns: seq<Turn>) returns (acts: seq<Action>)
      requires Stands() && x in sessions.nodes && forall t <- turns :: t.node in sessions.nodes - {x}
      modifies this`s, sessions, sessions.nodes`left, sessions.nodes`right, sessions.nodes`parent
      ensures Stands() && x.key in old(s).table && (s, acts) == Forwarder.Evict(old(s), x.key)
    {
      hide Tree.Valid;
      acts := [DelFd(ClientTask(x.key), x.fd), Close(x.fd)];
      sessions.Remove(x, turns);
      s := s.(table := s.table - {x.key});
    }

    /** The client task after recvfrom timed out: another round if the session was used, else its end. */
    method ClientTimeout(x: Session, turns: seq<Turn>) returns (acts: seq<Action>)
      requires Valid() && x in sessions.nodes && Allowed(c, s, Event.ClientTimeout(x.key))
      requires forall t <- turns :: t.node in sessions.nodes - {x}
      modifies this`s, this`n, sessions, sessions.nodes
      ensures Valid() && (s, acts) == Step(c, old(s), Event.ClientTimeout(x.key)) && ApplyAll(old(n), acts) == Some(n)
    {
      hide Inv, ApplyAll, Tree.Valid;
      ghost var m := Next(Event.ClientTimeout(x.key));
      ghost var t := Step(c, s, Event.ClientTimeout(x.key));
      assert s.table[x.key] == Sess(x.fd, x.active, x.started);
      assert x.active ==> t == (s.(table := s.table[x.key := Sess(x.fd, false, x.started)]), []);
      assert !x.active ==> t == Forwarder.Evict(s, x.key);
      hide Stands, Step, Forwarder.Evict;
      if x.active {
        acts := [];
        Set(x, false, x.started);
      } else {
        acts := Drop(x, turns);
      }
      n := m;
    }

    /** The client task after a datagram from the target: back to the client through the current server socket. */
    method ClientData(x: Session, data: Data, sent: bool, turns: seq<Turn>) returns (acts: seq<Action>)
      requires Valid() && x in sessions.nodes && Allowed(c, s, Event.ClientData(x.key, data, sent))
      requires forall t <- turns :: t.node in sessions.nodes - {x}
      modifies this`s, this`n, sessions, sessions.nodes
      ensures Valid() && ApplyAll(old(n), acts) == Some(n)
      ensures (s, acts) == Step(c, old(s), Event.ClientData(x.key, data, sent))
    {
      hide Inv, ApplyAll, Tree.Valid;
      ghost var m := Next(Event.ClientData(x.key, data, sent));
      acts := [
        FromTarget(x.fd, data),
        if sfd < 0 then Lost(x.fd, data)
        else if sent then SendClient(sfd, x.fd, x.key, data)
        else Refused(sfd, x.fd, x.key, data)
      ];
      ghost var t := Step(c, s, Event.ClientData(x.key, data, sent));
      assert s.table[x.key] == Sess(x.fd, x.active, x.started) && s.sfd == sfd;
      assert acts == Reply(s, x.key, data, sent);
      assert sfd >= 0 && sent ==> t == (s.(table := s.table[x.key := Sess(x.fd, false, x.started)]), acts);
      assert !(sfd >= 0 && sent) ==>
          t == (Forwarder.Evict(s, x.key).0, acts + Forwarder.Evict(s, x.key).1);
      hide Stands, Step, Forwarder.Evict, Reply;
      if sfd >= 0 && sent {
        Set(x, false, x.started);
      } else {
        var last := Drop(x, turns);
        acts := acts + last;
      }
      n := m;
    }

    /** The client task after an empty datagram or an error. */
    method ClientFail(x: Session, turns: seq<Turn>) returns (acts: seq<Action>)
      requires Valid() && x in sessions.nodes && Allowed(c, s, Event.ClientFail(x.key))
      requires forall t <- turns :: t.node in sessions.nodes - {x}
      modifies this`s, this`n, sessions, sessions.nodes`left, sessions.nodes`right, sessions.nodes`parent
      ensures Valid() && (s, acts) == Step(c, old(s), Event.ClientFail(x.key)) && ApplyAll(old(n), acts) == Some(n)
    {
      hide Inv, ApplyAll, Tree.Valid;
      ghost var m := Next(Event.ClientFail(x.key));
      assert Step(c, s, Event.ClientFail(x.key)) == Forwarder.Evict(s, x.key);
      hide Stands, Step, Forwarder.Evict;
      acts := Drop(x, turns);
      n := m;
    }

    /** `hev_ufwd_run`: a second call while a task exists does nothing. */
    method Run()
      requires Stands()
      modifies this`task, this`servers, this`s
      ensures Stands()
      ensures s == if old(task) then old(s) else old(s).(task := true, servers := old(s).servers + [Starting])
    {
      hide Tree.Valid;
      if task {
        return;
      }
      task, servers := true, servers + [Starting];
      s := s.(task := true, servers := servers);
    }

    /** `cmp_addr` and, if it reports a change, `hev_conf_mport`. */
    method Store(o: Obs)
      requires Stands() && o.Valid() && s.pub.memory.Valid()
      modifies this`mport, this`s, detector
      ensures Stands() && s == old(s).(pub := Bind(c.e, old(s).pub, o), latest := Some(o))
    {
      hide Tree.Valid, Differs, Remember, Ntohs, SetMport;
      ghost var pub := s.pub;
      var exec := detector.CmpAddr(o);
      if exec != 0 {
        mport := SetMport(mport, PortOf(c.e, o));
      }
      s := s.(pub := Bind(c.e, pub, o), latest := Some(o));
    }

    /** One successful binding: the handler starts the forwarder, and only then the port is stored. */
    method Binding(o: Obs)
      requires Valid() && o.Valid()
      modifies this`task, this`servers, this`mport, this`s, this`n, detector
      ensures Valid() && s == Step(c, old(s), Event.Binding(o)).0 && n == old(n)
    {
      hide Inv, ApplyAll, Tree.Valid;
      ghost var m := Next(Event.Binding(o));
      assert s.task == task && s.servers == servers;
      hide Stands, Bind;
      Run();
      Store(o);
      n := m;
    }

    /** `hev_ufwd_kill`, up to the wake-up of the scheduler. */
    method Kill()
      requires Valid()
      modifies this`quit, this`s, this`n
      ensures Valid() && s == Step(c, old(s), Event.Kill).0 && n == old(n)
    {
      hide Inv, ApplyAll, Tree.Valid;
      ghost var m := Next(Event.Kill);
      quit := true;
      s := s.(quit := true);
      n := m;
    }

    /** The entry of the server task. A kill that came before it is forgotten here. */
    method ServerStart(i: nat, fd: Option<nat>) returns (acts: seq<Action>)
      requires Valid() && Allowed(c, s, Event.Start(i, fd)) && Fresh(n, Event.Start(i, fd))
      modifies this`task, this`sfd, this`quit, this`servers, this`s, this`n
      ensures Valid() && (s, acts) == Step(c, old(s), Event.Start(i, fd)) && ApplyAll(old(n), acts) == Some(n)
    {
      hide Inv, ApplyAll, Tree.Valid;
      ghost var m := Next(Event.Start(i, fd));
      acts := if fd.None? then [] else [Open(fd.value, Listen), AddFd(ServerTask, fd.value)];
      ghost var t := Step(c, s, Event.Start(i, fd));
      assert s.servers == servers && s.quit == quit && s.task == task && t.1 == acts;
      assert fd.None? ==> t.0 == s.(task := false, sfd := -1, quit := quit, servers := Without(servers, i));
      assert fd.Some? ==> t.0 == s.(task := task, sfd := fd.value, quit := false, servers := servers[i := Receiving]);
      hide Step, Stands, Without;
      match fd {
        case None => Statics(false, -1, quit, Without(servers, i));
        case Some(f) => Statics(task, f, false, servers[i := Receiving]);
      }
      n := m;
    }

    /** The end of the server task. */
    method ServerStop(i: nat, err: bool) returns (acts: seq<Action>)
      requires Valid() && Allowed(c, s, Event.Stop(i, err))
      modifies this`task, this`sfd, this`quit, this`servers, this`s, this`n
      ensures Valid() && (s, acts) == Step(c, old(s), Event.Stop(i, err)) && ApplyAll(old(n), acts) == Some(n)
    {
      hide Inv, ApplyAll, Tree.Valid;
      ghost var m := Next(Event.Stop(i, err));
      acts := if sfd < 0 then [] else [DelFd(ServerTask, sfd), Close(sfd)];
      assert s.servers == servers && s.quit == quit && s.sfd == sfd;
      assert Step(c, s, Event.Stop(i, err))
          == (s.(task := false, sfd := -1, quit := quit, servers := Without(servers, i)), acts);
      hide Step, Stands, Without;
      Statics(false, -1, quit, Without(servers, i));
      n := m;
    }
  }
}
