/** The TCP keep-alive automaton `tnsk_keep_alive` (`src/hev-tnsk.c`) on every sequence of outcomes. */
module TcpKeeper {

  /**
   * One socket call: what it would return, whether `tnsk_kill` woke it while it was parked, whether it would then
   * block again, and how long it took.
   */
  datatype Call = Call(res: int, killed: bool, again: bool, took: nat)

  /** A call the keeper makes: a probe or a receive, and the value of `timeout` it is made with. */
  datatype Try = Try(probe: bool, wait: int)

  const TIMED_OUT := -2

  /**
   * What the call returns. The kill clears the timeout that the call's own yielder reads: a call that blocks
   * again sleeps for 0 and times out.
   */
  function Res(v: Call): int {
    if v.killed && v.again then TIMED_OUT else v.res
  }

  // ----- the reference: which calls are probes, and where the connection ends -----

  /** Call `i` sends a probe: the first one does, and so does the one after every receive that timed out. */
  predicate Probe(net: seq<Call>, i: nat)
    requires i < |net|
  {
    i == 0 || (!Probe(net, i - 1) && Res(net[i - 1]) == TIMED_OUT)
  }

  /** Among the calls before `n`, a kill has come during the receives since the latest probe. */
  ghost predicate KilledSince(net: seq<Call>, n: nat)
    requires n <= |net|
  {
    exists j :: 0 <= j < n && net[j].killed && forall m :: j <= m < n ==> !Probe(net, m)
  }

  /** Among the calls before `n`, a receive has timed out, and no data has come since. */
  ghost predicate Missed(net: seq<Call>, n: nat)
    requires n <= |net|
  {
    exists j :: 0 <= j < n && !Probe(net, j) && Res(net[j]) == TIMED_OUT
                && forall m :: j < m < n ==> Probe(net, m) || Res(net[m]) <= 0
  }

  /**
   * The keeper gives the connection up after call `i`: a probe that cannot be sent, a receive that fails other
   * than by timeout, a timeout after a kill, or a second timeout without data since the one before.
   */
  ghost predicate EndsAt(net: seq<Call>, i: nat)
    requires i < |net|
  {
    if Probe(net, i) then Res(net[i]) <= 0
    else Res(net[i]) <= 0 && (Res(net[i]) != TIMED_OUT || KilledSince(net, i + 1) || Missed(net, i))
  }

  /** The timeout call `i` is made with: 30 seconds for a probe, the interval or 0 for a receive. */
  ghost function Wait(keep: int, net: seq<Call>, i: nat): int
    requires i < |net|
  {
    if Probe(net, i) then 30000 else if KilledSince(net, i) then 0 else keep
  }

  lemma KilledStep(net: seq<Call>, n: nat)
    requires n < |net|
    ensures KilledSince(net, n + 1) <==> !Probe(net, n) && (net[n].killed || KilledSince(net, n))
  {
    if KilledSince(net, n) && !Probe(net, n) {
      var j :| 0 <= j < n && net[j].killed && forall m :: j <= m < n ==> !Probe(net, m);
      assert forall m :: j <= m < n + 1 ==> !Probe(net, m);
    }
  }

  lemma MissedStep(net: seq<Call>, n: nat)
    requires n < |net|
    ensures Missed(net, n + 1) <==>
            (!Probe(net, n) && Res(net[n]) == TIMED_OUT) || (Missed(net, n) && (Probe(net, n) || Res(net[n]) <= 0))
  {
    if Missed(net, n) && (Probe(net, n) || Res(net[n]) <= 0) {
      var j :| 0 <= j < n && !Probe(net, j) && Res(net[j]) == TIMED_OUT
               && forall m :: j < m < n ==> Probe(net, m) || Res(net[m]) <= 0;
      assert forall m :: j < m < n + 1 ==> Probe(net, m) || Res(net[m]) <= 0;
    }
  }

  function Probes(net: seq<Call>, n: nat): nat
    requires n <= |net|
  {
    if n == 0 then 0 else Probes(net, n - 1) + (if Probe(net, n - 1) then 1 else 0)
  }

  function Timeouts(net: seq<Call>, n: nat): nat
    requires n <= |net|
  {
    if n == 0 then 0
    else Timeouts(net, n - 1) + (if !Probe(net, n - 1) && Res(net[n - 1]) == TIMED_OUT then 1 else 0)
  }

  function Took(net: seq<Call>, n: nat): nat
    requires n <= |net|
  {
    if n == 0 then 0 else Took(net, n - 1) + net[n - 1].took
  }

  lemma {:induction false} FirstCall(net: seq<Call>)
    ensures !Missed(net, 0) && Probes(net, 0) == 0 && (|net| > 0 ==> Probe(net, 0))
  {}

  /** What call `n` adds to everything the loops keep track of. */
  lemma NextCall(net: seq<Call>, n: nat)
    requires n < |net|
    ensures Probes(net, n + 1) == Probes(net, n) + (if Probe(net, n) then 1 else 0)
    ensures n + 1 < |net| ==> (Probe(net, n + 1) <==> !Probe(net, n) && Res(net[n]) == TIMED_OUT)
    ensures KilledSince(net, n + 1) <==> !Probe(net, n) && (net[n].killed || KilledSince(net, n))
    ensures Missed(net, n + 1) <==>
            (!Probe(net, n) && Res(net[n]) == TIMED_OUT) || (Missed(net, n) && (Probe(net, n) || Res(net[n]) <= 0))
    ensures EndsAt(net, n) <==>
            Res(net[n]) <= 0
            && (Probe(net, n) || Res(net[n]) != TIMED_OUT || KilledSince(net, n + 1) || Missed(net, n))
  {
    hide Missed, KilledSince;
    KilledStep(net, n);
    MissedStep(net, n);
  }

  class Keeper {
    /** The static `timeout`, which `tnsk_kill` clears. */
    var timeout: int

    constructor () {
      timeout := 0;
    }

    /**
     * `tnsk_keep_alive`. `calls` are the calls made; `stopped` tells whether the function returned or still runs
     * when the given outcomes are used up.
     */
    method KeepAlive(keep: int, net: seq<Call>) returns (calls: seq<Try>, stopped: bool)
      requires keep > 0
      modifies this
      ensures |calls| <= |net| && forall i :: 0 <= i < |calls| ==> calls[i] == Try(Probe(net, i), Wait(keep, net, i))
      ensures forall i :: 0 <= i < |calls| ==> (EndsAt(net, i) <==> stopped && i == |calls| - 1)
      ensures if stopped then calls != [] else |calls| == |net|
    {
      FirstCall(net);
      hide Missed, KilledSince, EndsAt, Probe;
      var misscnt := 0;
      calls := [];
      while true
        invariant |calls| <= |net| && (|calls| < |net| ==> Probe(net, |calls|))
        invariant misscnt != 0 <==> Missed(net, |calls|)
        invariant forall i :: 0 <= i < |calls| ==> calls[i] == Try(Probe(net, i), Wait(keep, net, i))
        invariant forall i :: 0 <= i < |calls| ==> !EndsAt(net, i)
        decreases |net| - |calls|
      {
        var n := |calls|;
        if n == |net| {
          return calls, false;
        }
        timeout := 30000;
        calls := calls + [Try(true, timeout)];
        if net[n].killed {
          timeout := 0;
        }
        var res := if net[n].again && timeout == 0 then TIMED_OUT else net[n].res;
        NextCall(net, n);
        if res <= 0 {
          return calls, true;
        }
        timeout := keep;
        while true
          invariant n < |calls| <= |net| && (|calls| < |net| ==> !Probe(net, |calls|))
          invariant misscnt != 0 <==> Missed(net, |calls|)
          invariant timeout == if KilledSince(net, |calls|) then 0 else keep
          invariant forall i :: 0 <= i < |calls| ==> calls[i] == Try(Probe(net, i), Wait(keep, net, i))
          invariant forall i :: 0 <= i < |calls| ==> !EndsAt(net, i)
          decreases |net| - |calls|
        {
          var m := |calls|;
          if m == |net| {
            return calls, false;
          }
          calls := calls + [Try(false, timeout)];
          var blocks := net[m].again && net[m].killed;
          if net[m].killed {
            timeout := 0;
          }
          res := if blocks && timeout == 0 then TIMED_OUT else net[m].res;
          NextCall(net, m);
          if res == TIMED_OUT {
            misscnt := misscnt + 1;
            if misscnt == 1 && timeout != 0 {
              break;
            }
          }
          if res <= 0 {
            return calls, true;
          }
          misscnt := 0;
        }
      }
    }
  }

  // ----- the automaton on what the calls return -----

  /** The connection has not ended before call `i`. */
  ghost predicate Reached(net: seq<Call>, i: nat)
    requires i <= |net|
  {
    forall m :: 0 <= m < i ==> !EndsAt(net, m)
  }

  /** A probe ends the connection if and only if it fails, or blocks again with the timeout cleared by a kill. */
  lemma {:induction false} SendEndsIff(net: seq<Call>, i: nat)
    requires i < |net| && Probe(net, i)
    ensures EndsAt(net, i) <==> net[i].res <= 0 || (net[i].killed && net[i].again)
  {}

  /**
   * A receive with no kill since the latest probe ends the connection if and only if it fails other than by
   * timeout, or times out right after a probe that was not the first call.
   */
  lemma {:induction false} ReceiveEndsIff(net: seq<Call>, p: nat, i: nat)
    requires p < i < |net| && Reached(net, i) && Probe(net, p)
    requires forall m :: p < m <= i ==> !net[m].killed && !Probe(net, m)
    ensures EndsAt(net, i) <==> net[i].res <= 0 && (net[i].res != TIMED_OUT || 0 < p == i - 1)
  {
    hide Missed, KilledSince, Probe, EndsAt;
    NoKillSince(net, p, i);
    NextCall(net, i);
    MissedIff(net, p, i);
  }

  /** A kill during a receive: a call that brings data is the only one that does not end the connection. */
  lemma {:induction false} KilledReceiveEndsIff(net: seq<Call>, j: nat, i: nat)
    requires j <= i < |net| && net[j].killed && forall m :: j <= m <= i ==> !Probe(net, m)
    ensures EndsAt(net, i) <==> net[i].res <= 0 || (net[i].killed && net[i].again)
  {
    assert KilledSince(net, i + 1);
  }

  lemma {:induction false} NoKillSince(net: seq<Call>, p: nat, i: nat)
    requires p < i < |net| && Probe(net, p) && forall m :: p < m <= i ==> !net[m].killed && !Probe(net, m)
    ensures !KilledSince(net, i) && !KilledSince(net, i + 1)
  {}

  /** In a connection that has lasted, a timeout without data since is the one right before the latest probe. */
  lemma {:induction false} MissedIff(net: seq<Call>, p: nat, i: nat)
    requires p < i < |net| && Reached(net, i) && Probe(net, p) && forall m :: p < m <= i ==> !Probe(net, m)
    ensures Missed(net, i) <==> 0 < p == i - 1
    decreases i
  {
    hide KilledSince, EndsAt, Missed, Probe;
    NextCall(net, p);
    if p > 0 {
      NextCall(net, p - 1);
    }
    if p < i - 1 {
      NextCall(net, i - 1);
      assert !EndsAt(net, i - 1);
    } else if p == 0 {
      FirstCall(net);
    }
  }

  /**
   * What makes a call of a lasting connection a probe: it is the first, or the call before is a receive that timed
   * out with no kill during it.
   */
  lemma ProbeIff(net: seq<Call>, i: nat)
    requires i < |net| && Reached(net, i)
    ensures Probe(net, i) <==> i == 0 || (!Probe(net, i - 1) && net[i - 1].res == TIMED_OUT && !net[i - 1].killed)
  {
    FirstCall(net);
    hide Missed, KilledSince, Probe, EndsAt;
    if i > 0 {
      NextCall(net, i - 1);
      assert !EndsAt(net, i - 1);
    }
  }

  /** A receive waits for the interval, until a kill since the latest probe leaves it no time at all. */
  lemma {:induction false} ReceiveWaits(keep: int, net: seq<Call>, p: nat, i: nat)
    requires keep != 0 && p < i < |net| && Probe(net, p) && forall m :: p < m <= i ==> !Probe(net, m)
    ensures Wait(keep, net, i) == keep <==> forall m :: p < m < i ==> !net[m].killed
    ensures Wait(keep, net, i) == 0 <==> exists m :: p < m < i && net[m].killed
  {
    if exists m :: p < m < i && net[m].killed {
      var m :| p < m < i && net[m].killed;
      assert KilledSince(net, i);
    }
  }

  // ----- consequences -----

  /** Probes sent are one more than the timeouts tolerated. */
  lemma {:induction false} ProbesAreTimeouts(net: seq<Call>, n: nat)
    requires 0 < n <= |net|
    ensures Probes(net, n) == 1 + Timeouts(net, n - 1)
  {
    if n > 1 {
      ProbesAreTimeouts(net, n - 1);
    }
  }

  /** After a kill during the receives no further probe goes out on the connection. */
  lemma {:induction false} KillEndsProbing(net: seq<Call>, j: nat, i: nat)
    requires j < i < |net| && net[j].killed && !Probe(net, j)
    requires Reached(net, i)
    ensures !Probe(net, i) && KilledSince(net, i)
  {
    hide Missed, KilledSince, Probe, Probes, EndsAt;
    if i > j + 1 {
      KillEndsProbing(net, j, i - 1);
    }
    NextCall(net, i - 1);
    assert !EndsAt(net, i - 1);
  }

  /** The same calls with the same ends. */
  ghost predicate Alike(net: seq<Call>, other: seq<Call>) {
    && |net| == |other|
    && forall i :: 0 <= i < |net| ==> Probe(other, i) == Probe(net, i) && EndsAt(other, i) == EndsAt(net, i)
  }

  /**
   * A kill while a probe is being sent is lost, if the send then completes or would have failed anyway: probes and
   * end are those of the same calls without the kill. It takes effect if and only if the send would have
   * succeeded and blocks again: then it times out on the cleared timeout and the connection ends there.
   */
  lemma {:induction false} KillDuringSendLostIff(net: seq<Call>, k: nat)
    requires k < |net| && Probe(net, k) && net[k].killed
    ensures EndsAt(net, k) <==> net[k].again || net[k].res <= 0
    ensures Alike(net, net[k := net[k].(killed := false)]) <==> !net[k].again || net[k].res <= 0
  {
    var other := net[k := net[k].(killed := false)];
    forall i | 0 <= i < |net|
      ensures Probe(other, i) == Probe(net, i)
      ensures !net[k].again || net[k].res <= 0 ==> EndsAt(other, i) == EndsAt(net, i)
    {
      SameBesidesSend(net, other, k, i);
    }
    assert other[k].res == net[k].res;
  }

  lemma {:induction false} SameProbes(net: seq<Call>, other: seq<Call>, k: nat, i: nat)
    requires k < |net| && Probe(net, k) && i < |net| && |other| == |net| && other == net[k := other[k]]
    ensures Probe(net, i) == Probe(other, i)
    decreases i
  {
    if i > 0 {
      SameProbes(net, other, k, i - 1);
      if i - 1 == k {
        assert Probe(other, i - 1);
      }
    }
  }

  lemma {:induction false} SameBesidesSend(net: seq<Call>, other: seq<Call>, k: nat, i: nat)
    requires k < |net| && Probe(net, k) && i < |net| && |other| == |net| && other == net[k := other[k]]
    ensures Probe(net, i) == Probe(other, i)
    ensures (Res(net[k]) <= 0 <==> Res(other[k]) <= 0) ==> EndsAt(other, i) == EndsAt(net, i)
  {
    forall m | 0 <= m < |net| ensures Probe(other, m) == Probe(net, m) {
      SameProbes(net, other, k, m);
    }
    assert forall j :: 0 <= j <= i && !Probe(net, j) ==> other[j] == net[j];
    assert Missed(other, i) == Missed(net, i);
    assert KilledSince(other, i + 1) == KilledSince(net, i + 1);
  }

  /** A silent peer, every probe going out and every receive lasting its whole wait: dropped after two windows. */
  lemma {:induction false} SilentPeerDropped(keep: nat, net: seq<Call>)
    requires |net| >= 4
    requires forall i :: 0 <= i < |net| ==> !net[i].killed
    requires forall i :: 0 <= i < |net| ==> if Probe(net, i) then net[i].res > 0 else net[i].res == TIMED_OUT
    requires forall i :: 0 <= i < |net| && !Probe(net, i) ==> net[i].took == Wait(keep, net, i)
    ensures EndsAt(net, 3) && forall i :: 0 <= i < 3 ==> !EndsAt(net, i)
    ensures Probes(net, 4) == 2 && Took(net, 4) == 2 * keep + net[0].took + net[2].took
  {
    hide Missed, Probe, Probes, EndsAt;
    FirstCall(net);
    NextCall(net, 0);
    NextCall(net, 1);
    NextCall(net, 2);
    NextCall(net, 3);
    assert Took(net, 1) == net[0].took && Took(net, 2) == Took(net, 1) + net[1].took;
    assert Took(net, 3) == Took(net, 2) + net[2].took && Took(net, 4) == Took(net, 3) + net[3].took;
  }
}
