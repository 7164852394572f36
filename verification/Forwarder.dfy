/**
 * The UDP forwarder (`src/hev-ufwd.c`) as a transition system: one step is what a task does between two yields.
 * The sends at lines 177 and 236 are taken to complete without yielding.
 */
module Forwarder {
  import opened Keys
  import opened Words
  import opened Options
  import opened ChangeDetector
  import opened PublicPort

  type Data = seq<byte>

  /** A session in the table: its upstream socket, its flag, and whether its task has run yet. */
  datatype Sess = Sess(fd: nat, active: bool, started: bool)

  /** Where a server task is parked. */
  datatype Phase =
    | Starting
    | Receiving
    | Resolving(key: Key, data: Data, aim: string)
    | Connecting(key: Key, data: Data, fd: nat)

  /** `servers` are the server tasks alive; `task`, `sfd` and `quit` are the statics of the source. */
  datatype State = State(servers: seq<Phase>, task: bool, sfd: int, quit: bool, table: map<Key, Sess>,
                         pub: Pub, latest: Option<Obs>)

  /** Host order, the length of every client address, and the `-p` port unless it reads as 0. */
  datatype Config = Config(e: Endian, klen: nat, fixed: Option<string>)

  const INIT := State([], false, -1, false, map[], START, None)

  // ----- what the outside sees -----

  datatype Task = ServerTask | ClientTask(key: Key)
  datatype Purpose = Listen | Upstream(key: Key, aim: string)

  datatype Action =
    | Received(key: Key, data: Data)
    | Dropped(key: Key, data: Data)
    | Open(fd: nat, purpose: Purpose)
    | AddFd(task: Task, fd: nat)
    | DelFd(task: Task, fd: nat)
    | Close(fd: nat)
    | SendTarget(fd: nat, from: Key, data: Data)
    | FromTarget(fd: nat, data: Data)
    | SendClient(listen: nat, fd: nat, to: Key, data: Data)
    | Refused(listen: nat, fd: nat, to: Key, data: Data)
    | Lost(fd: nat, data: Data)

  /** An open descriptor: what it was opened for and the task it is registered with. */
  datatype Desc = Desc(purpose: Purpose, task: Option<Task>)

  /** The descriptors open, and the datagrams received on either side but not yet passed on. */
  datatype Net = Net(fds: map<nat, Desc>, pending: Option<(Key, Data)>, reply: Option<(nat, Data)>)

  const QUIET := Net(map[], None, None)

  /** A descriptor opened for this client, wherever it aims. */
  predicate For(p: Purpose, key: Key) {
    p.Upstream? && p.key == key
  }

  /**
   * The rules, stated without the forwarder: a descriptor is opened while closed and closed while open and
   * registered with no task; it is registered with at most one task and deregistered by that task; a client
   * has at most one upstream descriptor; a datagram goes once, unchanged, to the descriptor opened for its
   * sender; a reply is sent once, unchanged, on a listening descriptor to the client its own descriptor was
   * opened for, and goes out or is refused; or it is lost for want of such a descriptor.
   */
  function Apply(n: Net, a: Action): Option<Net> {
    match a
    case Received(key, data) => if n.pending.None? then Some(n.(pending := Some((key, data)))) else None
    case Dropped(key, data) => if n.pending == Some((key, data)) then Some(n.(pending := None)) else None
    case Open(fd, purpose) =>
      if fd !in n.fds && (purpose.Upstream? ==> forall g <- n.fds :: !For(n.fds[g].purpose, purpose.key))
      then Some(n.(fds := n.fds[fd := Desc(purpose, None)])) else None
    case AddFd(task, fd) =>
      if fd in n.fds && n.fds[fd].task == None
      then Some(n.(fds := n.fds[fd := Desc(n.fds[fd].purpose, Some(task))])) else None
    case DelFd(task, fd) =>
      if fd in n.fds && n.fds[fd].task == Some(task)
      then Some(n.(fds := n.fds[fd := Desc(n.fds[fd].purpose, None)])) else None
    case Close(fd) => if fd in n.fds && n.fds[fd].task == None then Some(n.(fds := n.fds - {fd})) else None
    case SendTarget(fd, from, data) =>
      if fd in n.fds && For(n.fds[fd].purpose, from) && n.pending == Some((from, data))
      then Some(n.(pending := None)) else None
    case FromTarget(fd, data) =>
      if fd in n.fds && n.fds[fd].purpose.Upstream? && n.reply.None? then Some(n.(reply := Some((fd, data)))) else None
    case SendClient(listen, fd, to, data) => Answer(n, listen, fd, to, data)
    case Refused(listen, fd, to, data) => Answer(n, listen, fd, to, data)
    case Lost(fd, data) =>
      if n.reply == Some((fd, data)) && forall g <- n.fds :: n.fds[g].purpose.Upstream?
      then Some(n.(reply := None)) else None
  }

  /** A reply leaves the forwarder's hands. */
  function Answer(n: Net, listen: nat, fd: nat, to: Key, data: Data): Option<Net> {
    if listen in n.fds && n.fds[listen].purpose == Listen && fd in n.fds && For(n.fds[fd].purpose, to)
       && n.reply == Some((fd, data))
    then Some(n.(reply := None)) else None
  }

  function ApplyAll(n: Net, acts: seq<Action>): Option<Net> {
    if acts == [] then Some(n)
    else
      var r := ApplyAll(n, acts[..|acts| - 1]);
      if r.None? then None else Apply(r.value, acts[|acts| - 1])
  }

  // ----- the steps -----

  datatype Event =
    | Binding(obs: Obs)                            // `stun_bind` succeeds: handler, `cmp_addr`, `hev_conf_mport`
    | Kill                                         // `hev_ufwd_kill`
    | Start(i: nat, fd: Option<nat>)               // the server task enters and binds, or fails to
    | Recv(i: nat, key: Key, data: Data)           // a datagram from client `key`
    | Stop(i: nat, err: bool)                      // recvfrom fails, or wakes up and sees `quit`
    | Resolved(i: nat, fd: Option<nat>)            // the upstream socket exists, or name or socket failed
    | Connected(i: nat, ok: bool)                  // connect and allocation done, or failed
    | ClientStart(key: Key)                        // the client task enters
    | ClientTimeout(key: Key)                      // its recvfrom returns -2
    | ClientData(key: Key, data: Data, sent: bool) // a datagram from the target; whether sendto succeeds
    | ClientFail(key: Key)                         // an empty datagram or an error from the target
    | ClientWake(key: Key)                         // woken early: the yielder retries

  predicate Allowed(c: Config, s: State, ev: Event) {
    match ev
    case Binding(obs) => obs.Valid()
    case Kill => true
    case Start(i, _) => i < |s.servers| && s.servers[i].Starting?
    case Recv(i, key, _) => i < |s.servers| && s.servers[i].Receiving? && |key| == c.klen
    case Stop(i, err) => i < |s.servers| && s.servers[i].Receiving? && (err || s.quit)
    case Resolved(i, _) => i < |s.servers| && s.servers[i].Resolving?
    case Connected(i, _) => i < |s.servers| && s.servers[i].Connecting?
    case ClientStart(key) => key in s.table && !s.table[key].started
    case _ => ev.key in s.table && s.table[ev.key].started
  }

  /** A new descriptor is one the system does not have open. */
  predicate Fresh(n: Net, ev: Event) {
    match ev
    case Start(_, Some(fd)) => fd !in n.fds
    case Resolved(_, Some(fd)) => fd !in n.fds
    case _ => true
  }

  function Without<T>(xs: seq<T>, i: nat): seq<T>
    requires i < |xs|
  {
    xs[..i] + xs[i + 1..]
  }

  /** `session_new`, its choice of the target port. */
  function Aim(c: Config, s: State): string {
    if c.fixed.Some? then c.fixed.value else s.pub.mport
  }

  /** The end of a client task: deregister, delete from the tree, close. */
  function Evict(s: State, key: Key): (State, seq<Action>)
    requires key in s.table
  {
    (s.(table := s.table - {key}), [DelFd(ClientTask(key), s.table[key].fd), Close(s.table[key].fd)])
  }

  /** The loop body of `client_task_entry` after recvfrom returned -2. */
  function Expire(x: Sess): Option<Sess> {
    if x.active then Some(x.(active := false)) else None
  }

  /** A datagram from the target goes back through whatever server socket there is now, if that takes it. */
  function Reply(s: State, key: Key, data: Data, sent: bool): seq<Action>
    requires key in s.table
  {
    var fd := s.table[key].fd;
    [FromTarget(fd, data),
     if s.sfd < 0 then Lost(fd, data)
     else if sent then SendClient(s.sfd, fd, key, data)
     else Refused(s.sfd, fd, key, data)]
  }

  function Step(c: Config, s: State, ev: Event): (State, seq<Action>)
    requires Allowed(c, s, ev) && s.pub.memory.Valid()
  {
    match ev
    case Binding(o) =>
      var r := if s.task then s else s.(task := true, servers := s.servers + [Starting]);
      (r.(pub := Bind(c.e, s.pub, o), latest := Some(o)), [])
    case Kill => (s.(quit := true), [])
    case Start(i, None) => (s.(servers := Without(s.servers, i), task := false, sfd := -1), [])
    case Start(i, Some(fd)) =>
      (s.(servers := s.servers[i := Receiving], sfd := fd, quit := false), [Open(fd, Listen), AddFd(ServerTask, fd)])
    case Recv(i, key, data) =>
      if key in s.table then
        (s.(table := s.table[key := s.table[key].(active := true)]),
         [Received(key, data), SendTarget(s.table[key].fd, key, data)])
      else
        (s.(servers := s.servers[i := Resolving(key, data, Aim(c, s))]), [Received(key, data)])
    case Stop(i, _) =>
      (s.(servers := Without(s.servers, i), task := false, sfd := -1),
       if s.sfd < 0 then [] else [DelFd(ServerTask, s.sfd), Close(s.sfd)])
    case Resolved(i, None) =>
      (s.(servers := s.servers[i := Receiving]), [Dropped(s.servers[i].key, s.servers[i].data)])
    case Resolved(i, Some(fd)) =>
      var p := s.servers[i];
      (s.(servers := s.servers[i := Connecting(p.key, p.data, fd)]),
       [Open(fd, Upstream(p.key, p.aim)), AddFd(ServerTask, fd)])
    case Connected(i, false) =>
      var p := s.servers[i];
      (s.(servers := s.servers[i := Receiving]), [DelFd(ServerTask, p.fd), Close(p.fd), Dropped(p.key, p.data)])
    case Connected(i, true) =>
      var p := s.servers[i];
      (s.(servers := s.servers[i := Receiving], table := s.table[p.key := Sess(p.fd, true, false)]),
       [DelFd(ServerTask, p.fd), SendTarget(p.fd, p.key, p.data)])
    case ClientStart(key) =>
      (s.(table := s.table[key := Sess(s.table[key].fd, false, true)]), [AddFd(ClientTask(key), s.table[key].fd)])
    case ClientTimeout(key) =>
      var x := Expire(s.table[key]);
      if x.Some? then (s.(table := s.table[key := x.value]), []) else Evict(s, key)
    case ClientData(key, data, sent) =>
      var reply := Reply(s, key, data, sent);
      if s.sfd >= 0 && sent then (s.(table := s.table[key := s.table[key].(active := false)]), reply)
      else
        var r := Evict(s, key);
        (r.0, reply + r.1)
    case ClientFail(key) => Evict(s, key)
    case ClientWake(key) => (s, [])
  }

  lemma RecvIs(c: Config, s: State, i: nat, key: Key, data: Data)
    requires Allowed(c, s, Recv(i, key, data)) && s.pub.memory.Valid()
    ensures Step(c, s, Recv(i, key, data))
         == if key in s.table then
              (s.(table := s.table[key := s.table[key].(active := true)]),
               [Received(key, data), SendTarget(s.table[key].fd, key, data)])
            else
              (s.(servers := s.servers[i := Resolving(key, data, Aim(c, s))]), [Received(key, data)])
  {}

  lemma StartIs(c: Config, s: State, i: nat, fd: nat)
    requires Allowed(c, s, Start(i, Some(fd))) && s.pub.memory.Valid()
    ensures Step(c, s, Start(i, Some(fd)))
         == (s.(servers := s.servers[i := Receiving], sfd := fd, quit := false),
             [Open(fd, Listen), AddFd(ServerTask, fd)])
  {}

  lemma ResolvedIs(c: Config, s: State, i: nat, fd: Option<nat>)
    requires Allowed(c, s, Resolved(i, fd)) && s.pub.memory.Valid()
    ensures var p := s.servers[i];
            Step(c, s, Resolved(i, fd))
            == match fd
               case None => (s.(servers := s.servers[i := Receiving]), [Dropped(p.key, p.data)])
               case Some(g) =>
                 (s.(servers := s.servers[i := Connecting(p.key, p.data, g)]),
                  [Open(g, Upstream(p.key, p.aim)), AddFd(ServerTask, g)])
  {}

  lemma ConnectedIs(c: Config, s: State, i: nat, ok: bool)
    requires Allowed(c, s, Connected(i, ok)) && s.pub.memory.Valid()
    ensures var p, t := s.servers[i], s.(servers := s.servers[i := Receiving]);
            Step(c, s, Connected(i, ok))
            == if ok then
                 (t.(table := s.table[p.key := Sess(p.fd, true, false)]),
                  [DelFd(ServerTask, p.fd), SendTarget(p.fd, p.key, p.data)])
               else (t, [DelFd(ServerTask, p.fd), Close(p.fd), Dropped(p.key, p.data)])
  {}

  // ----- the invariant -----

  ghost predicate Coherent(c: Config, s: State) {
    && |s.servers| <= 1
    && (s.task <==> |s.servers| == 1)
    && (s.sfd >= 0 <==> |s.servers| == 1 && !s.servers[0].Starting?)
    && (forall p <- s.servers :: (p.Resolving? || p.Connecting?) ==> p.key !in s.table && |p.key| == c.klen)
    && (forall key <- s.table :: |key| == c.klen)
  }

  ghost predicate Port(c: Config, s: State) {
    && Agrees(c.e, s.pub)
    && (s.latest.Some? ==> s.latest.value.Valid() && s.pub.memory == Remember(s.latest.value))
    && (s.task ==> s.latest.Some?)
  }

  /** The task a session's descriptor is registered with. */
  function TaskOf(key: Key, x: Sess): Option<Task> {
    if x.started then Some(ClientTask(key)) else None
  }

  /** A descriptor for this client, registered like this. */
  predicate Held(d: Desc, key: Key, task: Option<Task>) {
    For(d.purpose, key) && d.task == task
  }

  ghost predicate InHand(s: State, fd: nat, key: Key) {
    exists p <- s.servers :: p.Connecting? && p.fd == fd && p.key == key
  }

  /** A session, or one under construction, has this descriptor. */
  ghost predicate Owned(s: State, fd: nat, key: Key) {
    (key in s.table && s.table[key].fd == fd) || InHand(s, fd, key)
  }

  /** The descriptors open are exactly those the state accounts for. */
  ghost predicate Accounted(s: State, n: Net) {
    && (s.sfd >= 0 ==> s.sfd in n.fds && n.fds[s.sfd] == Desc(Listen, Some(ServerTask)))
    && (forall p <- s.servers ::
          p.Connecting? ==> p.fd in n.fds && Held(n.fds[p.fd], p.key, Some(ServerTask)))
    && (forall key <- s.table ::
          s.table[key].fd in n.fds && Held(n.fds[s.table[key].fd], key, TaskOf(key, s.table[key])))
    && (forall fd <- n.fds ::
          if n.fds[fd].purpose.Listen? then fd == s.sfd else Owned(s, fd, n.fds[fd].purpose.key))
    && n.reply.None?
    && n.pending == if |s.servers| == 1 && (s.servers[0].Resolving? || s.servers[0].Connecting?)
                    then Some((s.servers[0].key, s.servers[0].data)) else None
  }

  ghost predicate Inv(c: Config, s: State, n: Net) {
    Coherent(c, s) && Port(c, s) && Accounted(s, n)
  }

  // ----- every step keeps it, and breaks no rule -----

  lemma {:induction false} ApplyNone(n: Net)
    ensures ApplyAll(n, []) == Some(n)
  {}

  lemma {:induction false} ApplyOne(n: Net, a: Action)
    ensures ApplyAll(n, [a]) == Apply(n, a)
  {
    assert [a][..0] == [];
  }

  lemma {:induction false} ApplyTwo(n: Net, a: Action, b: Action)
    ensures ApplyAll(n, [a, b]) == var r := Apply(n, a); if r.None? then None else Apply(r.value, b)
  {
    assert [a, b][..1] == [a];
    ApplyOne(n, a);
  }

  lemma {:induction false} ApplyThree(n: Net, a: Action, b: Action, d: Action)
    ensures ApplyAll(n, [a, b, d]) == var r := ApplyAll(n, [a, b]); if r.None? then None else Apply(r.value, d)
  {
    assert [a, b, d][..2] == [a, b];
  }

  lemma {:induction false} ApplyConcat(n: Net, a: seq<Action>, b: seq<Action>)
    ensures ApplyAll(n, a + b) == var r := ApplyAll(n, a); if r.None? then None else ApplyAll(r.value, b)
  {
    if b == [] {
      assert a + b == a;
    } else {
      assert (a + b)[..|a + b| - 1] == a + b[..|b| - 1];
      ApplyConcat(n, a, b[..|b| - 1]);
    }
  }

  ghost predicate Kept(c: Config, s: State, n: Net, ev: Event)
    requires Allowed(c, s, ev) && s.pub.memory.Valid()
  {
    var (t, acts) := Step(c, s, ev);
    var m := ApplyAll(n, acts);
    m.Some? && Inv(c, t, m.value)
  }

  lemma PortStays(c: Config, s: State, ev: Event)
    requires Coherent(c, s) && Port(c, s) && Allowed(c, s, ev) && !ev.Binding?
    ensures Port(c, Step(c, s, ev).0)
  {
    hide Agrees, Remember, Bind;
  }

  /** Two actions that deregister and close a descriptor. */
  lemma {:induction false} DelClose(n: Net, task: Task, fd: nat)
    requires fd in n.fds && n.fds[fd].task == Some(task)
    ensures ApplyAll(n, [DelFd(task, fd), Close(fd)]) == Some(n.(fds := n.fds - {fd}))
  {
    ApplyTwo(n, DelFd(task, fd), Close(fd));
    assert n.fds[fd := Desc(n.fds[fd].purpose, None)] - {fd} == n.fds - {fd};
  }

  /** Two actions that open and register a descriptor. */
  lemma {:induction false} OpenAdd(n: Net, fd: nat, purpose: Purpose, task: Task)
    requires fd !in n.fds && (purpose.Upstream? ==> forall g <- n.fds :: !For(n.fds[g].purpose, purpose.key))
    ensures ApplyAll(n, [Open(fd, purpose), AddFd(task, fd)]) == Some(n.(fds := n.fds[fd := Desc(purpose, Some(task))]))
  {
    ApplyTwo(n, Open(fd, purpose), AddFd(task, fd));
    assert n.fds[fd := Desc(purpose, None)][fd := Desc(purpose, Some(task))] == n.fds[fd := Desc(purpose, Some(task))];
  }

  /** A datagram that a new session forwards once its descriptor is no longer the server's. */
  lemma {:induction false} HandOver(n: Net, fd: nat, key: Key, data: Data)
    requires fd in n.fds && Held(n.fds[fd], key, Some(ServerTask)) && n.pending == Some((key, data))
    ensures ApplyAll(n, [DelFd(ServerTask, fd), SendTarget(fd, key, data)])
         == Some(n.(fds := n.fds[fd := Desc(n.fds[fd].purpose, None)], pending := None))
  {
    ApplyTwo(n, DelFd(ServerTask, fd), SendTarget(fd, key, data));
  }

  lemma SamePort(c: Config, s: State, t: State)
    requires Port(c, s) && t.pub == s.pub && t.latest == s.latest && t.task == s.task
    ensures Port(c, t)
  {
    hide Agrees, Remember;
  }

  lemma EvictAccounted(s: State, n: Net, key: Key)
    requires Accounted(s, n) && key in s.table
    ensures Accounted(Evict(s, key).0, n.(fds := n.fds - {s.table[key].fd}))
  {
    var fd, t := s.table[key].fd, Evict(s, key).0;
    assert For(n.fds[fd].purpose, key);
    assert forall a <- s.table :: a != key ==> s.table[a].fd != fd;
    forall g | g in n.fds && g != fd && n.fds[g].purpose.Upstream?
      ensures Owned(t, g, n.fds[g].purpose.key)
    {
      assert InHand(s, g, n.fds[g].purpose.key) ==> InHand(t, g, n.fds[g].purpose.key);
    }
  }

  lemma {:induction false} EvictKeeps(c: Config, s: State, n: Net, key: Key)
    requires Inv(c, s, n) && key in s.table && s.table[key].started
    ensures var m := ApplyAll(n, Evict(s, key).1); m.Some? && Inv(c, Evict(s, key).0, m.value)
  {
    DelClose(n, ClientTask(key), s.table[key].fd);
    SamePort(c, s, Evict(s, key).0);
    hide Agrees, Remember, Apply, ApplyAll, Port;
    EvictAccounted(s, n, key);
    hide Accounted;
  }

  /** Setting or clearing the flag of a session. */
  lemma FlagKeeps(c: Config, s: State, n: Net, key: Key, active: bool)
    requires Inv(c, s, n) && key in s.table
    ensures Inv(c, s.(table := s.table[key := s.table[key].(active := active)]), n)
  {
    var t := s.(table := s.table[key := s.table[key].(active := active)]);
    SamePort(c, s, t);
    hide Port;
    forall g | g in n.fds && n.fds[g].purpose.Upstream?
      ensures Owned(t, g, n.fds[g].purpose.key)
    {
      assert InHand(s, g, n.fds[g].purpose.key) ==> InHand(t, g, n.fds[g].purpose.key);
    }
  }

  /** A client task takes its descriptor over. */
  lemma StartAccounted(s: State, n: Net, key: Key)
    requires Accounted(s, n) && key in s.table && !s.table[key].started
    ensures var x := s.table[key];
            Accounted(s.(table := s.table[key := Sess(x.fd, false, true)]),
                      n.(fds := n.fds[x.fd := Desc(n.fds[x.fd].purpose, Some(ClientTask(key)))]))
  {
    var x := s.table[key];
    var t := s.(table := s.table[key := Sess(x.fd, false, true)]);
    assert forall k <- s.table :: k != key ==> s.table[k].fd != x.fd;
    forall g | g in n.fds && n.fds[g].purpose.Upstream?
      ensures Owned(t, g, n.fds[g].purpose.key)
    {
      assert InHand(s, g, n.fds[g].purpose.key) ==> InHand(t, g, n.fds[g].purpose.key);
    }
  }

  lemma ClientStartKeeps(c: Config, s: State, n: Net, key: Key)
    requires Inv(c, s, n) && Allowed(c, s, ClientStart(key))
    ensures Kept(c, s, n, ClientStart(key))
  {
    var fd := s.table[key].fd;
    StartAccounted(s, n, key);
    PortStays(c, s, ClientStart(key));
    ApplyOne(n, AddFd(ClientTask(key), fd));
    assert Apply(n, AddFd(ClientTask(key), fd))
        == Some(n.(fds := n.fds[fd := Desc(n.fds[fd].purpose, Some(ClientTask(key)))]));
    hide Accounted, Apply, ApplyAll, Port;
  }

  lemma ClientTimeoutKeeps(c: Config, s: State, n: Net, key: Key)
    requires Inv(c, s, n) && Allowed(c, s, ClientTimeout(key))
    ensures Kept(c, s, n, ClientTimeout(key))
  {
    EvictKeeps(c, s, n, key);
    FlagKeeps(c, s, n, key, false);
    assert ApplyAll(n, []) == Some(n);
    hide Bind, Inv, Evict, Apply;
  }

  /** A datagram that comes back and is handed on, or lost. */
  lemma {:induction false} ThereAndBack(n: Net, fd: nat, data: Data, a: Action)
    requires fd in n.fds && n.fds[fd].purpose.Upstream? && n.reply.None?
    requires Apply(n.(reply := Some((fd, data))), a) == Some(n)
    ensures ApplyAll(n, [FromTarget(fd, data), a]) == Some(n)
  {
    ApplyTwo(n, FromTarget(fd, data), a);
    hide ApplyAll;
  }

  /** A reply on its way breaks no rule and leaves the descriptors alone. */
  lemma {:induction false} ReplyKeeps(c: Config, s: State, n: Net, key: Key, data: Data, sent: bool)
    requires Inv(c, s, n) && key in s.table
    ensures ApplyAll(n, Reply(s, key, data, sent)) == Some(n)
  {
    hide Port, ApplyAll;
    ThereAndBack(n, s.table[key].fd, data, Reply(s, key, data, sent)[1]);
  }

  lemma ClientDataKeeps(c: Config, s: State, n: Net, key: Key, data: Data, sent: bool)
    requires Inv(c, s, n) && Allowed(c, s, ClientData(key, data, sent))
    ensures Kept(c, s, n, ClientData(key, data, sent))
  {
    hide Bind, Inv, Apply, ApplyAll, Evict, Reply;
    EvictKeeps(c, s, n, key);
    FlagKeeps(c, s, n, key, false);
    ReplyKeeps(c, s, n, key, data, sent);
    ApplyConcat(n, Reply(s, key, data, sent), Evict(s, key).1);
  }

  lemma PortMemory(c: Config, s: State)
    requires Port(c, s)
    ensures s.pub.memory.Valid()
  {}

  /** A step is safe if its actions lead to accounts that fit its state. */
  lemma {:induction false} Settle(c: Config, s: State, n: Net, ev: Event, m: Net)
    requires Inv(c, s, n) && Allowed(c, s, ev) && !ev.Binding? && s.pub.memory.Valid()
    requires ApplyAll(n, Step(c, s, ev).1) == Some(m) && Accounted(Step(c, s, ev).0, m)
    ensures Kept(c, s, n, ev)
  {
    hide Coherent, Port, Accounted, Step, Allowed, ApplyAll;
    CoherentStays(c, s, ev);
    PortStays(c, s, ev);
  }

  lemma StartedAccounted(c: Config, s: State, n: Net, i: nat, fd: nat)
    requires Coherent(c, s) && Accounted(s, n) && i < |s.servers| && s.servers[i].Starting? && fd !in n.fds
    ensures Accounted(s.(servers := s.servers[i := Receiving], sfd := fd, quit := false),
                      n.(fds := n.fds[fd := Desc(Listen, Some(ServerTask))]))
  {
    var t := s.(servers := s.servers[i := Receiving], sfd := fd, quit := false);
    forall g | g in n.fds && n.fds[g].purpose.Upstream? ensures Owned(t, g, n.fds[g].purpose.key) {
      assert Owned(s, g, n.fds[g].purpose.key);
    }
  }

  lemma StartKeeps(c: Config, s: State, n: Net, i: nat, fd: Option<nat>)
    requires Inv(c, s, n) && Allowed(c, s, Start(i, fd)) && Fresh(n, Start(i, fd))
    ensures Kept(c, s, n, Start(i, fd))
  {
    hide Agrees, Remember, Bind, Port;
    PortMemory(c, s);
    if fd.Some? {
      StartIs(c, s, i, fd.value);
      OpenAdd(n, fd.value, Listen, ServerTask);
      StartedAccounted(c, s, n, i, fd.value);
      hide Coherent, Accounted, Step, Apply, ApplyAll;
      Settle(c, s, n, Start(i, fd), n.(fds := n.fds[fd.value := Desc(Listen, Some(ServerTask))]));
    } else {
      PortStays(c, s, Start(i, fd));
    }
  }

  lemma StopKeeps(c: Config, s: State, n: Net, i: nat, err: bool)
    requires Inv(c, s, n) && Allowed(c, s, Stop(i, err))
    ensures Kept(c, s, n, Stop(i, err))
  {
    hide Agrees, Remember, Bind, Port, ApplyAll;
    PortStays(c, s, Stop(i, err));
    DelClose(n, ServerTask, s.sfd);
    hide Apply;
  }

  lemma RecvKeeps(c: Config, s: State, n: Net, i: nat, key: Key, data: Data)
    requires Inv(c, s, n) && Allowed(c, s, Recv(i, key, data))
    ensures Kept(c, s, n, Recv(i, key, data))
  {
    hide Agrees, Remember, Bind, Port, ApplyAll;
    if key in s.table {
      FlagKeeps(c, s, n, key, true);
      ApplyTwo(n, Received(key, data), SendTarget(s.table[key].fd, key, data));
    } else {
      PortStays(c, s, Recv(i, key, data));
      ApplyOne(n, Received(key, data));
    }
  }

  /** While a server resolves for a client, that client has no upstream descriptor. */
  lemma NoUpstreamYet(c: Config, s: State, n: Net, i: nat)
    requires Inv(c, s, n) && i < |s.servers| && s.servers[i].Resolving?
    ensures forall g <- n.fds :: !For(n.fds[g].purpose, s.servers[i].key)
  {
    hide Port;
    assert s.servers[i] in s.servers;
  }

  lemma ResolvedAccounted(c: Config, s: State, n: Net, i: nat, fd: nat)
    requires Coherent(c, s) && Accounted(s, n) && i < |s.servers| && s.servers[i].Resolving? && fd !in n.fds
    ensures var p := s.servers[i];
            Accounted(s.(servers := s.servers[i := Connecting(p.key, p.data, fd)]),
                      n.(fds := n.fds[fd := Desc(Upstream(p.key, p.aim), Some(ServerTask))]))
  {
    var p := s.servers[i];
    var t := s.(servers := s.servers[i := Connecting(p.key, p.data, fd)]);
    assert t.servers[i] in t.servers;
    forall g | g in n.fds && n.fds[g].purpose.Upstream? ensures Owned(t, g, n.fds[g].purpose.key) {
      assert Owned(s, g, n.fds[g].purpose.key);
    }
  }

  /** A server task gives up its client: the phase is over, the datagram gone, a descriptor in hand closed. */
  lemma GivenUpAccounted(c: Config, s: State, n: Net, i: nat)
    requires Coherent(c, s) && Accounted(s, n) && i < |s.servers|
    requires s.servers[i].Resolving? || s.servers[i].Connecting?
    ensures n.pending == Some((s.servers[i].key, s.servers[i].data))
    ensures var p := s.servers[i];
            Accounted(s.(servers := s.servers[i := Receiving]),
                      n.(fds := if p.Connecting? then n.fds - {p.fd} else n.fds, pending := None))
  {
    var p, t := s.servers[i], s.(servers := s.servers[i := Receiving]);
    assert p in s.servers;
    forall g | g in n.fds && n.fds[g].purpose.Upstream? && !(p.Connecting? && g == p.fd)
      ensures Owned(t, g, n.fds[g].purpose.key)
    {
      assert Owned(s, g, n.fds[g].purpose.key);
    }
  }

  lemma ResolvedKeeps(c: Config, s: State, n: Net, i: nat, fd: Option<nat>)
    requires Inv(c, s, n) && Allowed(c, s, Resolved(i, fd)) && Fresh(n, Resolved(i, fd))
    ensures Kept(c, s, n, Resolved(i, fd))
  {
    hide Agrees, Remember, Bind, Port;
    var p := s.servers[i];
    PortMemory(c, s);
    ResolvedIs(c, s, i, fd);
    if fd.Some? {
      NoUpstreamYet(c, s, n, i);
      OpenAdd(n, fd.value, Upstream(p.key, p.aim), ServerTask);
      ResolvedAccounted(c, s, n, i, fd.value);
      hide Coherent, Accounted, Step, Apply, ApplyAll;
      Settle(c, s, n, Resolved(i, fd), n.(fds := n.fds[fd.value := Desc(Upstream(p.key, p.aim), Some(ServerTask))]));
    } else {
      ApplyOne(n, Dropped(p.key, p.data));
      GivenUpAccounted(c, s, n, i);
      hide Coherent, Accounted, Step, ApplyAll;
      Settle(c, s, n, Resolved(i, fd), n.(pending := None));
    }
  }

  lemma FailedKeeps(c: Config, s: State, n: Net, i: nat)
    requires Inv(c, s, n) && Allowed(c, s, Connected(i, false))
    ensures Kept(c, s, n, Connected(i, false))
  {
    hide Agrees, Remember, Bind, Port;
    var p := s.servers[i];
    assert p in s.servers;
    PortMemory(c, s);
    ConnectedIs(c, s, i, false);
    DelClose(n, ServerTask, p.fd);
    ApplyThree(n, DelFd(ServerTask, p.fd), Close(p.fd), Dropped(p.key, p.data));
    GivenUpAccounted(c, s, n, i);
    hide Coherent, Accounted, Step, ApplyAll;
    Settle(c, s, n, Connected(i, false), n.(fds := n.fds - {p.fd}, pending := None));
  }

  lemma ConnectedAccounted(c: Config, s: State, n: Net, i: nat)
    requires Coherent(c, s) && Accounted(s, n) && i < |s.servers| && s.servers[i].Connecting?
    ensures var p := s.servers[i];
            && n.pending == Some((p.key, p.data))
            && p.fd in n.fds && Held(n.fds[p.fd], p.key, Some(ServerTask))
            && Accounted(s.(servers := s.servers[i := Receiving], table := s.table[p.key := Sess(p.fd, true, false)]),
                         n.(fds := n.fds[p.fd := Desc(n.fds[p.fd].purpose, None)], pending := None))
  {
    var p := s.servers[i];
    var t := s.(servers := s.servers[i := Receiving], table := s.table[p.key := Sess(p.fd, true, false)]);
    assert p in s.servers;
    forall g | g in n.fds && n.fds[g].purpose.Upstream? ensures Owned(t, g, n.fds[g].purpose.key) {
      assert Owned(s, g, n.fds[g].purpose.key);
    }
  }

  lemma ConnectedKeeps(c: Config, s: State, n: Net, i: nat)
    requires Inv(c, s, n) && Allowed(c, s, Connected(i, true))
    ensures Kept(c, s, n, Connected(i, true))
  {
    hide Agrees, Remember, Bind, Port;
    var p := s.servers[i];
    PortMemory(c, s);
    ConnectedIs(c, s, i, true);
    ConnectedAccounted(c, s, n, i);
    hide Coherent, Accounted, Step, Apply, ApplyAll;
    HandOver(n, p.fd, p.key, p.data);
    Settle(c, s, n, Connected(i, true), n.(fds := n.fds[p.fd := Desc(n.fds[p.fd].purpose, None)], pending := None));
  }

  lemma BindingKeeps(c: Config, s: State, n: Net, o: Obs)
    requires Inv(c, s, n) && Allowed(c, s, Binding(o))
    ensures Kept(c, s, n, Binding(o))
  {
    hide Agrees, Remember;
    BindAgrees(c.e, s.pub, o);
  }

  lemma StepKeeps(c: Config, s: State, n: Net, ev: Event)
    requires Inv(c, s, n) && Allowed(c, s, ev) && Fresh(n, ev)
    ensures Kept(c, s, n, ev)
  {
    match ev
    case Binding(o) => BindingKeeps(c, s, n, o);
    case Kill =>
    case Start(i, fd) => StartKeeps(c, s, n, i, fd);
    case Stop(i, err) => StopKeeps(c, s, n, i, err);
    case Recv(i, key, data) => RecvKeeps(c, s, n, i, key, data);
    case Resolved(i, fd) => ResolvedKeeps(c, s, n, i, fd);
    case Connected(i, ok) => if ok { ConnectedKeeps(c, s, n, i); } else { FailedKeeps(c, s, n, i); }
    case ClientStart(key) => ClientStartKeeps(c, s, n, key);
    case ClientTimeout(key) => ClientTimeoutKeeps(c, s, n, key);
    case ClientData(key, data, sent) => ClientDataKeeps(c, s, n, key, data, sent);
    case ClientFail(key) => EvictKeeps(c, s, n, key);
    case ClientWake(key) =>
  }

  // ----- the part of the invariant that needs no descriptors -----

  lemma ServerKeyIsNew(c: Config, s: State, i: nat)
    requires Coherent(c, s) && i < |s.servers| && s.servers[i].Connecting?
    ensures s.servers[i].key !in s.table && |s.servers[i].key| == c.klen
  {
    assert s.servers[i] in s.servers;
  }

  /** A step that touches only the sessions and adds none. */
  lemma CoherentIf(c: Config, s: State, t: State)
    requires Coherent(c, s) && t.servers == s.servers && t.task == s.task && t.sfd == s.sfd
    requires t.table.Keys <= s.table.Keys
    ensures Coherent(c, t)
  {}

  /** The events of client tasks. */
  predicate OfClient(ev: Event) {
    ev.ClientStart? || ev.ClientTimeout? || ev.ClientData? || ev.ClientFail? || ev.ClientWake?
  }

  lemma ClientShape(c: Config, s: State, ev: Event)
    requires s.pub.memory.Valid() && Allowed(c, s, ev) && OfClient(ev)
    ensures var t := Step(c, s, ev).0;
            t.servers == s.servers && t.task == s.task && t.sfd == s.sfd && t.table.Keys <= s.table.Keys
  {
    hide Reply;
  }

  lemma CoherentStays(c: Config, s: State, ev: Event)
    requires Coherent(c, s) && s.pub.memory.Valid() && Allowed(c, s, ev)
    ensures Coherent(c, Step(c, s, ev).0)
  {
    if OfClient(ev) {
      ClientShape(c, s, ev);
      CoherentIf(c, s, Step(c, s, ev).0);
    } else {
      CoherentServer(c, s, ev);
    }
    hide Step;
  }

  lemma CoherentServer(c: Config, s: State, ev: Event)
    requires Coherent(c, s) && s.pub.memory.Valid() && Allowed(c, s, ev) && !OfClient(ev)
    ensures Coherent(c, Step(c, s, ev).0)
  {
    hide Bind, Reply, Evict, Expire, Aim;
    if ev.Connected? {
      assert s.servers[ev.i] in s.servers;
    }
  }

  lemma MemoryStays(c: Config, s: State, ev: Event)
    requires s.pub.memory.Valid() && Allowed(c, s, ev)
    ensures Step(c, s, ev).0.pub.memory.Valid()
  {
    hide Bind, Reply, Without, Aim;
  }

  // ----- runs -----

  /** A system: the forwarder, the descriptors, and everything that has happened. */
  datatype Sys = Sys(s: State, n: Net, log: seq<Action>)

  /** How a run ends: in a system, at an event that cannot happen there, or at an action that breaks a rule. */
  datatype Outcome = Fine(sys: Sys) | Blocked | Broken

  function RunAll(c: Config, evs: seq<Event>): (o: Outcome)
    ensures o.Fine? ==> o.sys.s.pub.memory.Valid()
  {
    if evs == [] then Fine(Sys(INIT, QUIET, []))
    else
      var o := RunAll(c, evs[..|evs| - 1]);
      var ev := evs[|evs| - 1];
      if !o.Fine? then o
      else if !Allowed(c, o.sys.s, ev) || !Fresh(o.sys.n, ev) then Blocked
      else
        var (t, acts) := Step(c, o.sys.s, ev);
        var m := ApplyAll(o.sys.n, acts);
        if m.None? then Broken else Fine(Sys(t, m.value, o.sys.log + acts))
  }

  /** No run ever breaks a rule, every state it reaches satisfies the invariant, and the log replays to it. */
  lemma {:induction false} RunsAreSafe(c: Config, evs: seq<Event>)
    ensures RunAll(c, evs) != Broken
    ensures var o := RunAll(c, evs);
            o.Fine? ==> Inv(c, o.sys.s, o.sys.n) && ApplyAll(QUIET, o.sys.log) == Some(o.sys.n)
  {
    hide Step, Apply;
    if evs == [] {
      StartAgrees(c.e);
    } else {
      RunsAreSafe(c, evs[..|evs| - 1]);
      var o := RunAll(c, evs[..|evs| - 1]);
      var ev := evs[|evs| - 1];
      if o.Fine? && Allowed(c, o.sys.s, ev) && Fresh(o.sys.n, ev) {
        StepKeeps(c, o.sys.s, o.sys.n, ev);
        ApplyConcat(QUIET, o.sys.log, Step(c, o.sys.s, ev).1);
      }
    }
  }
}
