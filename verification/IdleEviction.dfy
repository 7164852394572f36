/** How long an idle session lives: the forwarder with a clock, `timeout` being the configured `tmsec`. */
module IdleEviction {
  import opened Keys
  import opened Options
  import opened PublicPort
  import opened Forwarder

  /** The history of one session: nothing here influences the forwarder. */
  datatype Clock = Clock(
    last: int,    // when its last packet passed, in either direction
    begin: int,   // when the current window began: `active` was cleared and recvfrom called
    armed: int,   // when the current sleep began: at the window's begin or at the last early wake
    prev: int     // when the window before began, or the session was made
  )

  datatype Timed = At(time: int, ev: Event)
  datatype TState = TState(s: State, clocks: map<Key, Clock>, now: int)

  /** The actions of a step let a packet of `key` pass, upstream or back. */
  predicate Carries(acts: seq<Action>, key: Key) {
    exists a <- acts :: (a.SendTarget? && a.from == key) || (a.SendClient? && a.to == key)
  }

  /** The yielder: a receive times out only after a whole `timeout` of sleep since it was last armed. */
  predicate Timely(T: nat, w: TState, e: Timed)
  {
    && w.now <= e.time
    && (e.ev.ClientTimeout? ==> e.ev.key in w.clocks && w.clocks[e.ev.key].armed + T <= e.time)
  }

  function Tick(w: TState, t: State, acts: seq<Action>, e: Timed, key: Key): Clock
    requires key in t.table
  {
    if key !in w.s.table || key !in w.clocks then Clock(e.time, e.time, e.time, e.time)
    else
      var k := w.clocks[key];
      var last := if Carries(acts, key) then e.time else k.last;
      if e.ev == ClientStart(key) then Clock(last, e.time, e.time, k.prev)
      else if e.ev == ClientTimeout(key) then Clock(last, e.time, e.time, k.begin)
      else if e.ev.ClientData? && e.ev.key == key then Clock(last, e.time, e.time, e.time)
      else if e.ev == ClientWake(key) then k.(last := last, armed := e.time)
      else k.(last := last)
  }

  function TStep(c: Config, w: TState, e: Timed): (v: TState)
    requires Allowed(c, w.s, e.ev) && w.s.pub.memory.Valid()
  {
    var (t, acts) := Step(c, w.s, e.ev);
    TState(t, map key | key in t.table :: Tick(w, t, acts, e, key), e.time)
  }

  function TRun(c: Config, T: nat, es: seq<Timed>): (r: Option<TState>)
    ensures r.Some? ==> r.value.s.pub.memory.Valid()
  {
    if es == [] then Some(TState(INIT, map[], 0))
    else
      var r := TRun(c, T, es[..|es| - 1]);
      var e := es[|es| - 1];
      if r.None? || !Allowed(c, r.value.s, e.ev) || !Timely(T, r.value, e) then None
      else Some(TStep(c, r.value, e))
  }

  /** What the clock of a session knows about its flag. */
  ghost predicate Good(x: Sess, k: Clock, now: int) {
    && k.prev <= k.last <= now && k.prev <= k.begin <= k.armed <= now
    && (x.started && x.active ==> k.begin <= k.last)
    && (x.started && !x.active ==> k.last <= k.begin)
  }

  ghost predicate TInv(c: Config, w: TState) {
    && w.s.pub.memory.Valid() && Coherent(c, w.s)
    && w.clocks.Keys == w.s.table.Keys
    && forall key <- w.s.table :: Good(w.s.table[key], w.clocks[key], w.now)
  }

  // ----- what each event does to the session it is about -----

  lemma OnWake(c: Config, w: TState, t: int, key: Key)
    requires w.s.pub.memory.Valid() && Allowed(c, w.s, ClientWake(key)) && key in w.clocks
    ensures var v := TStep(c, w, At(t, ClientWake(key)));
            v.s == w.s && v.now == t && key in v.clocks && v.clocks[key] == w.clocks[key].(armed := t)
  {
    assert !Carries(Step(c, w.s, ClientWake(key)).1, key);
  }

  lemma OnRecv(c: Config, w: TState, t: int, i: nat, key: Key, data: Data)
    requires w.s.pub.memory.Valid() && Allowed(c, w.s, Recv(i, key, data)) && key in w.s.table && key in w.clocks
    ensures var v := TStep(c, w, At(t, Recv(i, key, data)));
            && key in v.s.table && v.s.table[key] == w.s.table[key].(active := true)
            && v.s.pub == w.s.pub && v.now == t
            && key in v.clocks && v.clocks[key] == w.clocks[key].(last := t)
  {
    var acts := Step(c, w.s, Recv(i, key, data)).1;
    assert acts[1] == SendTarget(w.s.table[key].fd, key, data);
    assert Carries(acts, key);
  }

  lemma OnStart(c: Config, w: TState, t: int, key: Key)
    requires w.s.pub.memory.Valid() && Allowed(c, w.s, ClientStart(key)) && key in w.clocks
    ensures var v, k := TStep(c, w, At(t, ClientStart(key))), w.clocks[key];
            && key in v.s.table && v.s.table[key] == Sess(w.s.table[key].fd, false, true)
            && key in v.clocks && v.clocks[key] == Clock(k.last, t, t, k.prev)
  {
    assert !Carries(Step(c, w.s, ClientStart(key)).1, key);
  }

  lemma OnTimeout(c: Config, w: TState, t: int, key: Key)
    requires w.s.pub.memory.Valid() && Allowed(c, w.s, ClientTimeout(key)) && key in w.clocks
    ensures var v, k := TStep(c, w, At(t, ClientTimeout(key))), w.clocks[key];
            if w.s.table[key].active then
              && key in v.s.table && v.s.table[key] == w.s.table[key].(active := false)
              && v.s.pub == w.s.pub && v.now == t
              && key in v.clocks && v.clocks[key] == Clock(k.last, t, t, k.begin)
            else key !in v.s.table
  {
    if w.s.table[key].active {
      assert !Carries(Step(c, w.s, ClientTimeout(key)).1, key);
    }
  }

  lemma OnData(c: Config, w: TState, t: int, key: Key, data: Data, sent: bool)
    requires w.s.pub.memory.Valid() && Allowed(c, w.s, ClientData(key, data, sent)) && key in w.clocks
    ensures var v := TStep(c, w, At(t, ClientData(key, data, sent)));
            if w.s.sfd >= 0 && sent then
              && key in v.s.table && v.s.table[key] == w.s.table[key].(active := false)
              && key in v.clocks && v.clocks[key] == Clock(t, t, t, t)
            else key !in v.s.table
  {
    if w.s.sfd >= 0 && sent {
      var acts := Step(c, w.s, ClientData(key, data, sent)).1;
      assert acts[1] == SendClient(w.s.sfd, w.s.table[key].fd, key, data);
      assert Carries(acts, key);
    }
  }

  /** An event is about a session that is in the table. */
  predicate About(ev: Event, key: Key) {
    match ev
    case Recv(_, k, _) => k == key
    case ClientStart(k) => k == key
    case ClientTimeout(k) => k == key
    case ClientData(k, _, _) => k == key
    case ClientFail(k) => k == key
    case ClientWake(k) => k == key
    case _ => false
  }

  /** An event about something else leaves a session alone. */
  lemma OtherStep(c: Config, s: State, ev: Event, key: Key)
    requires s.pub.memory.Valid() && Coherent(c, s) && Allowed(c, s, ev) && !About(ev, key)
    ensures var (t, acts) := Step(c, s, ev);
            && (key in s.table ==> key in t.table && t.table[key] == s.table[key] && !Carries(acts, key))
            && (key !in s.table && key in t.table ==> !t.table[key].started)
  {
    if ev.Connected? {
      ServerKeyIsNew(c, s, ev.i);
    }
    hide Bind, Coherent, Aim, Without, Expire;
  }

  lemma OnOther(c: Config, w: TState, e: Timed, key: Key)
    requires w.s.pub.memory.Valid() && Coherent(c, w.s) && Allowed(c, w.s, e.ev) && !About(e.ev, key)
    requires key in Step(c, w.s, e.ev).0.table && (key in w.s.table ==> key in w.clocks)
    ensures var v := TStep(c, w, e);
            && key in v.s.table && key in v.clocks
            && if key in w.s.table then v.s.table[key] == w.s.table[key] && v.clocks[key] == w.clocks[key]
               else !v.s.table[key].started && v.clocks[key] == Clock(e.time, e.time, e.time, e.time)
  {
    OtherStep(c, w.s, e.ev, key);
    hide Step, Carries, Coherent;
  }

  /** One session over one step. */
  lemma TickKeeps(c: Config, T: nat, w: TState, e: Timed, key: Key)
    requires TInv(c, w) && Allowed(c, w.s, e.ev) && Timely(T, w, e)
    requires key in Step(c, w.s, e.ev).0.table
    ensures Good(Step(c, w.s, e.ev).0.table[key], TStep(c, w, e).clocks[key], e.time)
  {
    assert TStep(c, w, e).s == Step(c, w.s, e.ev).0;
    assert key in w.s.table ==> Good(w.s.table[key], w.clocks[key], w.now);
    assert e.ev.ClientFail? ==> e.ev.key != key;
    assert About(e.ev, key) && e.ev.Recv? ==> key in w.s.table;
    hide Step, TStep, Tick, Coherent;
    if !About(e.ev, key) {
      OnOther(c, w, e, key);
    } else {
      match e.ev
      case Recv(i, _, data) => OnRecv(c, w, e.time, i, key, data);
      case ClientStart(_) => OnStart(c, w, e.time, key);
      case ClientTimeout(_) => OnTimeout(c, w, e.time, key);
      case ClientData(_, data, sent) => OnData(c, w, e.time, key, data, sent);
      case ClientWake(_) => OnWake(c, w, e.time, key);
    }
  }

  lemma TStepKeeps(c: Config, T: nat, w: TState, e: Timed)
    requires TInv(c, w) && Allowed(c, w.s, e.ev) && Timely(T, w, e)
    ensures TInv(c, TStep(c, w, e))
  {
    var v := TStep(c, w, e);
    MemoryStays(c, w.s, e.ev);
    CoherentStays(c, w.s, e.ev);
    hide Step, Coherent, Good, Allowed, Timely, Tick;
    assert v.s == Step(c, w.s, e.ev).0 && v.now == e.time && v.clocks.Keys == v.s.table.Keys;
    hide TStep;
    forall key | key in v.s.table ensures Good(v.s.table[key], v.clocks[key], v.now) {
      TickKeeps(c, T, w, e, key);
    }
  }

  lemma {:induction false} TRunInv(c: Config, T: nat, es: seq<Timed>)
    requires TRun(c, T, es).Some?
    ensures TInv(c, TRun(c, T, es).value)
  {
    hide TStep, Timely, Allowed, Good;
    if es != [] {
      TRunInv(c, T, es[..|es| - 1]);
      TStepKeeps(c, T, TRun(c, T, es[..|es| - 1]).value, es[|es| - 1]);
    }
  }

  /** The last event of the run `es + [e]` is a timeout that removes its session. */
  predicate Evicts(c: Config, T: nat, es: seq<Timed>, e: Timed) {
    && e.ev.ClientTimeout? && TRun(c, T, es).Some? && TRun(c, T, es + [e]).Some?
    && e.ev.key in TRun(c, T, es).value.s.table && e.ev.key !in TRun(c, T, es + [e]).value.s.table
  }

  lemma {:induction false} LastEvent(c: Config, T: nat, es: seq<Timed>, e: Timed)
    requires TRun(c, T, es + [e]).Some?
    ensures TRun(c, T, es).Some?
    ensures var w := TRun(c, T, es).value;
            Allowed(c, w.s, e.ev) && Timely(T, w, e) && TRun(c, T, es + [e]) == Some(TStep(c, w, e))
  {
    assert (es + [e])[..|es|] == es;
    hide Allowed, Timely, TStep;
  }

  /** By how much a stretch of time exceeds `timeout`. */
  function Over(T: nat, from: int, to: int): nat {
    if to - from > T then to - from - T else 0
  }

  /**
   * Over any timed run: a session removed by timeout at time e had its last packet at a time a with
   * timeout <= e - a, and e - a exceeds 2 * timeout at most by what its last two windows overran. The wait of a
   * new client task for its start counts as its first window.
   */
  lemma {:induction false} EvictionBounds(c: Config, T: nat, es: seq<Timed>, e: Timed)
    requires Evicts(c, T, es, e)
    ensures e.ev.key in TRun(c, T, es).value.clocks
    ensures var k := TRun(c, T, es).value.clocks[e.ev.key];
            T <= e.time - k.last <= 2 * T + Over(T, k.prev, k.begin) + Over(T, k.begin, e.time)
  {
    TRunInv(c, T, es);
    LastEvent(c, T, es, e);
    hide TRun, Step;
    var w := TRun(c, T, es).value;
    OnTimeout(c, w, e.time, e.ev.key);
  }

  // ----- punctual runs -----

  /** Nothing wakes early, timers fire on time, and a client task starts within `timeout` of being made. */
  predicate Punctual(T: nat, w: TState, e: Timed) {
    && !e.ev.ClientWake?
    && (e.ev.ClientTimeout? ==> e.ev.key in w.clocks && e.time == w.clocks[e.ev.key].armed + T)
    && (e.ev.ClientStart? ==> e.ev.key in w.clocks && e.time <= w.clocks[e.ev.key].prev + T)
  }

  predicate PunctualRun(c: Config, T: nat, es: seq<Timed>) {
    es == [] || (PunctualRun(c, T, es[..|es| - 1]) && TRun(c, T, es[..|es| - 1]).Some?
                 && Punctual(T, TRun(c, T, es[..|es| - 1]).value, es[|es| - 1]))
  }

  lemma {:induction false} NeverLate(c: Config, T: nat, es: seq<Timed>)
    requires TRun(c, T, es).Some? && PunctualRun(c, T, es)
    ensures forall key <- TRun(c, T, es).value.clocks ::
              var k := TRun(c, T, es).value.clocks[key]; k.armed == k.begin && k.begin <= k.prev + T
  {
    hide Step;
    if es != [] {
      NeverLate(c, T, es[..|es| - 1]);
    }
  }

  /** In a punctual run the removed session was idle for at least `timeout` and at most twice that. */
  lemma {:induction false} EvictedWithinTwice(c: Config, T: nat, es: seq<Timed>, e: Timed)
    requires Evicts(c, T, es, e) && PunctualRun(c, T, es + [e])
    ensures e.ev.key in TRun(c, T, es).value.clocks
    ensures T <= e.time - TRun(c, T, es).value.clocks[e.ev.key].last <= 2 * T
  {
    assert (es + [e])[..|es|] == es;
    EvictionBounds(c, T, es, e);
    NeverLate(c, T, es);
    assert Punctual(T, TRun(c, T, es).value, e);
    hide TRun;
  }

  // ----- early wakes: exactly when the bound of two timeouts holds -----

  /** The client task of `key` goes to sleep: at the begin of a window, or again after an early wake. */
  predicate Sleeps(ev: Event, key: Key) {
    match ev
    case ClientStart(k) => k == key
    case ClientTimeout(k) => k == key
    case ClientData(k, _, _) => k == key
    case ClientWake(k) => k == key
    case _ => false
  }

  lemma SleepStep(c: Config, T: nat, w: TState, e: Timed, key: Key)
    requires TInv(c, w) && Allowed(c, w.s, e.ev) && Timely(T, w, e)
    requires key in TStep(c, w, e).s.table && TStep(c, w, e).s.table[key].started
    ensures key in TStep(c, w, e).clocks
    ensures if Sleeps(e.ev, key) then TStep(c, w, e).clocks[key].armed == e.time
            else key in w.s.table && w.s.table[key].started && key in w.clocks
                 && TStep(c, w, e).clocks[key].armed == w.clocks[key].armed
  {
    assert TStep(c, w, e).s == Step(c, w.s, e.ev).0;
    assert e.ev.ClientFail? ==> e.ev.key != key;
    assert e.ev.Recv? && e.ev.key == key ==> key in w.s.table;
    hide Step, TStep, Tick, Coherent, Good;
    if !About(e.ev, key) {
      OnOther(c, w, e, key);
    } else {
      match e.ev
      case Recv(i, _, data) => OnRecv(c, w, e.time, i, key, data);
      case ClientStart(_) => OnStart(c, w, e.time, key);
      case ClientTimeout(_) => OnTimeout(c, w, e.time, key);
      case ClientData(_, data, sent) => OnData(c, w, e.time, key, data, sent);
      case ClientWake(_) => OnWake(c, w, e.time, key);
    }
  }

  lemma {:induction false} ArmedStep(c: Config, T: nat, es: seq<Timed>, key: Key)
    requires TRun(c, T, es).Some?
    requires key in TRun(c, T, es).value.s.table && TRun(c, T, es).value.s.table[key].started
    ensures key in TRun(c, T, es).value.clocks && es != []
    ensures var v, o := TRun(c, T, es).value, TRun(c, T, es[..|es| - 1]);
            if Sleeps(es[|es| - 1].ev, key) then v.clocks[key].armed == es[|es| - 1].time
            else o.Some? && key in o.value.s.table && o.value.s.table[key].started && key in o.value.clocks
                 && v.clocks[key].armed == o.value.clocks[key].armed
  {
    assert es != [];
    var front, e := es[..|es| - 1], es[|es| - 1];
    assert front + [e] == es;
    LastEvent(c, T, front, e);
    TRunInv(c, T, front);
    hide *;
    SleepStep(c, T, TRun(c, T, front).value, e, key);
  }

  /** `armed` is what it says: the time of the last event of the run that put the task to sleep. */
  lemma {:induction false} ArmedIsLastSleep(c: Config, T: nat, es: seq<Timed>, key: Key) returns (k: nat)
    requires TRun(c, T, es).Some?
    requires key in TRun(c, T, es).value.s.table && TRun(c, T, es).value.s.table[key].started
    ensures k < |es| && Sleeps(es[k].ev, key) && forall j :: k < j < |es| ==> !Sleeps(es[j].ev, key)
    ensures key in TRun(c, T, es).value.clocks && TRun(c, T, es).value.clocks[key].armed == es[k].time
  {
    hide *;
    ArmedStep(c, T, es, key);
    if Sleeps(es[|es| - 1].ev, key) {
      k := |es| - 1;
    } else {
      k := ArmedIsLastSleep(c, T, es[..|es| - 1], key);
    }
  }

  // ----- what else the clock says, told from the run -----

  /** At index `k` of the run a packet of `key` passes, upstream or back. */
  ghost predicate Passes(c: Config, T: nat, es: seq<Timed>, k: nat, key: Key) {
    k < |es| && TRun(c, T, es[..k]).Some?
    && var w := TRun(c, T, es[..k]).value;
    Allowed(c, w.s, es[k].ev) && Carries(Step(c, w.s, es[k].ev).1, key)
  }

  /** The session of `key` is made by a step that passes the datagram in hand on. */
  lemma BornCarrying(c: Config, s: State, ev: Event, key: Key)
    requires s.pub.memory.Valid() && Allowed(c, s, ev) && key !in s.table && key in Step(c, s, ev).0.table
    ensures Carries(Step(c, s, ev).1, key)
  {
    if ev.Connected? && ev.ok {
      var p := s.servers[ev.i];
      assert Step(c, s, ev).1[1] == SendTarget(p.fd, p.key, p.data);
    }
    hide Bind, Aim, Without, Expire, Carries;
  }

  lemma LastMoves(c: Config, w: TState, e: Timed, key: Key)
    requires TInv(c, w) && Allowed(c, w.s, e.ev) && key in TStep(c, w, e).clocks
    ensures if Carries(Step(c, w.s, e.ev).1, key) then TStep(c, w, e).clocks[key].last == e.time
            else key in w.clocks && TStep(c, w, e).clocks[key].last == w.clocks[key].last
  {
    hide Step, Carries, Coherent, Good;
    if key !in w.s.table {
      BornCarrying(c, w.s, e.ev, key);
    }
  }

  /** `last` is the time of the last event of the run at which a packet of the session passed. */
  lemma {:induction false} LastIsLastPacket(c: Config, T: nat, es: seq<Timed>, key: Key) returns (k: nat)
    requires TRun(c, T, es).Some? && key in TRun(c, T, es).value.clocks
    ensures Passes(c, T, es, k, key) && forall j: nat :: k < j ==> !Passes(c, T, es, j, key)
    ensures k < |es| && TRun(c, T, es).value.clocks[key].last == es[k].time
  {
    assert es != [];
    var n := |es| - 1;
    var front, e := es[..n], es[n];
    assert front + [e] == es;
    LastEvent(c, T, front, e);
    TRunInv(c, T, front);
    var w := TRun(c, T, front).value;
    LastMoves(c, w, e, key);
    hide TRun, TStep, Step, Carries, Allowed, TInv, Timely;
    if Carries(Step(c, w.s, e.ev).1, key) {
      k := n;
    } else {
      k := LastIsLastPacket(c, T, front, key);
      forall j: nat | j < n ensures Passes(c, T, es, j, key) == Passes(c, T, front, j, key) {
        assert front[..j] == es[..j];
      }
    }
  }

  /** The client task of `key` begins a window. */
  predicate Begins(ev: Event, key: Key) {
    match ev
    case ClientStart(k) => k == key
    case ClientTimeout(k) => k == key
    case ClientData(k, _, _) => k == key
    case _ => false
  }

  lemma BeginMoves(c: Config, T: nat, w: TState, e: Timed, key: Key)
    requires TInv(c, w) && Allowed(c, w.s, e.ev) && Timely(T, w, e)
    requires key in TStep(c, w, e).s.table && TStep(c, w, e).s.table[key].started
    ensures key in TStep(c, w, e).clocks && key in w.clocks && (Begins(e.ev, key) || w.s.table[key].started)
    ensures var k, l := w.clocks[key], TStep(c, w, e).clocks[key];
            && l.begin == (if Begins(e.ev, key) then e.time else k.begin)
            && l.prev == if e.ev.ClientData? && Begins(e.ev, key) then e.time
                         else if e.ev.ClientTimeout? && Begins(e.ev, key) then k.begin else k.prev
  {
    assert TStep(c, w, e).s == Step(c, w.s, e.ev).0;
    assert e.ev.ClientFail? ==> e.ev.key != key;
    assert e.ev.Recv? && e.ev.key == key ==> key in w.s.table;
    hide Step, TStep, Tick, Coherent, Good;
    if !About(e.ev, key) {
      OnOther(c, w, e, key);
    } else {
      match e.ev
      case Recv(i, _, data) => OnRecv(c, w, e.time, i, key, data);
      case ClientStart(_) => OnStart(c, w, e.time, key);
      case ClientTimeout(_) => OnTimeout(c, w, e.time, key);
      case ClientData(_, data, sent) => OnData(c, w, e.time, key, data, sent);
      case ClientWake(_) => OnWake(c, w, e.time, key);
    }
  }

  /**
   * Over any timed run, whatever woke the client task: a session removed by a timer that fires on time was idle
   * for at most twice the timeout if and only if the last event that put its task to sleep came within one
   * timeout of its last packet.
   */
  lemma {:induction false} WithinTwiceIffSleptSoon(c: Config, T: nat, es: seq<Timed>, e: Timed) returns (k: nat)
    requires Evicts(c, T, es, e)
    ensures e.ev.key in TRun(c, T, es).value.clocks
    ensures k < |es| && Sleeps(es[k].ev, e.ev.key) && forall j :: k < j < |es| ==> !Sleeps(es[j].ev, e.ev.key)
    ensures var last := TRun(c, T, es).value.clocks[e.ev.key].last;
            && T <= e.time - last && es[k].time + T <= e.time
            && (e.time == es[k].time + T ==> (e.time - last <= 2 * T <==> es[k].time <= last + T))
  {
    EvictionBounds(c, T, es, e);
    LastEvent(c, T, es, e);
    assert TRun(c, T, es).value.s.table[e.ev.key].started;
    hide TRun, Evicts, Sleeps;
    k := ArmedIsLastSleep(c, T, es, e.ev.key);
  }

  /** An event that may happen now, and not after its timer is over. */
  predicate Prompt(c: Config, T: nat, w: TState, e: Timed) {
    && Allowed(c, w.s, e.ev) && Timely(T, w, e)
    && (e.ev.ClientTimeout? ==> e.time == w.clocks[e.ev.key].armed + T)
  }

  /** Steps from a given state, every timer firing exactly when its sleep is over. */
  function OnTime(c: Config, T: nat, w: TState, es: seq<Timed>): (r: Option<TState>)
    requires w.s.pub.memory.Valid()
    ensures r.Some? ==> r.value.s.pub.memory.Valid()
    decreases |es|
  {
    if es == [] then Some(w)
    else if !Prompt(c, T, w, es[0]) then None
    else OnTime(c, T, TStep(c, w, es[0]), es[1..])
  }

  lemma {:induction false} OnTimeOne(c: Config, T: nat, w: TState, e: Timed)
    requires w.s.pub.memory.Valid() && Prompt(c, T, w, e)
    ensures OnTime(c, T, w, [e]) == Some(TStep(c, w, e))
  {
    assert [e][1..] == [];
  }

  lemma {:induction false} OnTimeMore(c: Config, T: nat, w: TState, e: Timed, es: seq<Timed>)
    requires w.s.pub.memory.Valid() && Prompt(c, T, w, e)
    ensures OnTime(c, T, w, [e] + es) == OnTime(c, T, TStep(c, w, e), es)
  {
    assert ([e] + es)[1..] == es;
  }

  /** A datagram at offset `g` and a wake at offset `u` of a sleep that began at `t`, in their order; then `es`. */
  function FirstWindow(t: int, g: nat, u: nat, key: Key, data: Data, es: seq<Timed>): seq<Timed> {
    var packet, wake := At(t + g, Recv(0, key, data)), At(t + u, ClientWake(key));
    if g < u then [packet] + ([wake] + es) else [wake] + ([packet] + es)
  }

  /** The sleep ends at `t`, and its successor is cut short at offset `d`. */
  function SecondWindow(t: int, d: nat, key: Key): seq<Timed> {
    [At(t, ClientTimeout(key))] + [At(t + d, ClientWake(key))]
  }

  /** A server task receives, and the session's task has started. */
  ghost predicate Serving(c: Config, w: TState, key: Key) {
    && w.s.pub.memory.Valid() && key in w.s.table && w.s.table[key].started && key in w.clocks && |key| == c.klen
    && |w.s.servers| == 1 && w.s.servers[0].Receiving?
  }

  lemma ThroughFirst(c: Config, T: nat, w: TState, g: nat, u: nat, key: Key, data: Data, es: seq<Timed>)
      returns (v: TState)
    requires Serving(c, w, key)
    ensures v.s.pub == w.s.pub && v.now == w.now + (if g < u then u else g)
    ensures OnTime(c, T, w, FirstWindow(w.now, g, u, key, data, es)) == OnTime(c, T, v, es)
    ensures key in v.s.table && v.s.table[key] == Sess(w.s.table[key].fd, true, true)
    ensures key in v.clocks && v.clocks[key].last == w.now + g && v.clocks[key].armed == w.now + u
  {
    hide OnTime, Step, TStep;
    var packet, wake := At(w.now + g, Recv(0, key, data)), At(w.now + u, ClientWake(key));
    if g < u {
      OnRecv(c, w, packet.time, 0, key, data);
      OnTimeMore(c, T, w, packet, [wake] + es);
      var x := TStep(c, w, packet);
      OnWake(c, x, wake.time, key);
      OnTimeMore(c, T, x, wake, es);
      v := TStep(c, x, wake);
    } else {
      OnWake(c, w, wake.time, key);
      OnTimeMore(c, T, w, wake, [packet] + es);
      var x := TStep(c, w, wake);
      OnRecv(c, x, packet.time, 0, key, data);
      OnTimeMore(c, T, x, packet, es);
      v := TStep(c, x, packet);
    }
  }

  lemma ThroughSecond(c: Config, T: nat, w: TState, d: nat, key: Key) returns (v: TState)
    requires w.s.pub.memory.Valid() && key in w.clocks && w.now <= w.clocks[key].armed + T
    requires key in w.s.table && w.s.table[key].started && w.s.table[key].active
    ensures var t := w.clocks[key].armed + T;
            && OnTime(c, T, w, SecondWindow(t, d, key)) == Some(v) && v.s.pub == w.s.pub
            && key in v.s.table && v.s.table[key] == Sess(w.s.table[key].fd, false, true) && v.now == t + d
            && key in v.clocks && v.clocks[key].last == w.clocks[key].last && v.clocks[key].armed == t + d
  {
    hide OnTime, Step, TStep;
    var t := w.clocks[key].armed + T;
    var e1, e2 := At(t, ClientTimeout(key)), At(t + d, ClientWake(key));
    OnTimeout(c, w, t, key);
    OnTimeMore(c, T, w, e1, [e2]);
    var x := TStep(c, w, e1);
    OnWake(c, x, t + d, key);
    OnTimeOne(c, T, x, e2);
    v := TStep(c, x, e2);
  }

  /**
   * The two-timeout bound under early wakes, from any state in which a client task sleeps: a datagram arrives at
   * offset `g` of the sleep, the task is woken at offset `u` of it, and at offset `d` of the next window. Every
   * wake makes the yielder sleep a whole timeout again, so the session is evicted at `u + d` after two timeouts
   * from the begin of the sleep. It was idle for at most two timeouts if and only if `u + d <= g`.
   */
  lemma {:induction false} WakesDecideBound(c: Config, T: nat, w: TState, g: nat, u: nat, d: nat,
                                            key: Key, data: Data) returns (v: TState)
    requires TInv(c, w) && key in w.s.table && w.s.table[key].started && w.clocks[key].armed == w.now
    requires |w.s.servers| == 1 && w.s.servers[0].Receiving?
    requires u <= T && d <= T && g <= u + T
    ensures var t := w.now;
            OnTime(c, T, w, FirstWindow(t, g, u, key, data, SecondWindow(t + u + T, d, key))) == Some(v)
    ensures key in v.clocks && v.clocks[key].last == w.now + g && v.s.pub.memory.Valid()
    ensures var e := At(w.now + u + d + 2 * T, ClientTimeout(key));
            && Prompt(c, T, v, e) && key !in TStep(c, v, e).s.table
            && (e.time - v.clocks[key].last <= 2 * T <==> u + d <= g)
  {
    hide *;
    Serves(c, w, key);
    var x := ThroughFirst(c, T, w, g, u, key, data, SecondWindow(w.now + u + T, d, key));
    v := ThroughSecond(c, T, x, d, key);
    LastTimeout(c, T, v, key);
  }

  lemma Serves(c: Config, w: TState, key: Key)
    requires TInv(c, w) && key in w.s.table && w.s.table[key].started
    requires |w.s.servers| == 1 && w.s.servers[0].Receiving?
    ensures Serving(c, w, key) && w.s.pub.memory.Valid()
  {}

  /** The timer of an unused session removes it. */
  lemma LastTimeout(c: Config, T: nat, w: TState, key: Key)
    requires w.s.pub.memory.Valid() && key in w.clocks && w.now <= w.clocks[key].armed + T
    requires key in w.s.table && w.s.table[key].started && !w.s.table[key].active
    ensures var e := At(w.clocks[key].armed + T, ClientTimeout(key));
            Prompt(c, T, w, e) && key !in TStep(c, w, e).s.table
  {
    OnTimeout(c, w, w.clocks[key].armed + T, key);
    hide TStep, Step;
  }
}
