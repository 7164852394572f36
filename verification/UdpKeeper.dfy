/** The UDP keep-alive schedule `unsk_keep_alive` (`src/hev-unsk.c`). */
module UdpKeeper {
  import opened Remainders

  /**
   * One interval: whether the sleep was cut short, whether `unsk_kill` ran during it, whether the forwarder's
   * socket is open when it ends, and whether the one-byte refresh can be sent.
   */
  datatype Interval = Interval(early: bool, killed: bool, open: bool, sent: bool)

  datatype Act = Check | Refresh

  /** `unsigned int` counts that an `int` can reach. */
  const INT_MAX := 0x7FFF_FFFF

  /**
   * The schedule, stated on the acts alone: a check comes when the forwarder has no socket, or when the
   * `cycle - 1` acts before were all refreshes.
   */
  ghost predicate Scheduled(net: seq<Interval>, acts: seq<Act>, cycle: nat) {
    && |acts| <= |net|
    && forall i :: 0 <= i < |acts| ==>
         (acts[i] == Check <==> !net[i].open || (i + 1 >= cycle && RefreshesBefore(acts, i, cycle - 1)))
  }

  ghost predicate RefreshesBefore(acts: seq<Act>, i: nat, k: int)
    requires i <= |acts| && k <= i
  {
    forall j :: i - k <= j < i ==> acts[j] == Refresh
  }

  /** Exactly the last `n` acts are refreshes. */
  ghost predicate Since(acts: seq<Act>, n: nat) {
    n <= |acts| && RefreshesBefore(acts, |acts|, n) && (n < |acts| ==> acts[|acts| - n - 1] == Check)
  }

  lemma SamePast(acts: seq<Act>, a: Act, i: nat, k: int)
    requires k <= i <= |acts|
    ensures RefreshesBefore(acts + [a], i, k) <==> RefreshesBefore(acts, i, k)
  {
    assert forall j :: 0 <= j < i ==> (acts + [a])[j] == acts[j];
  }

  /** One more act, chosen by the counter, keeps to the schedule. */
  lemma NextAct(net: seq<Interval>, acts: seq<Act>, cycle: nat, n: nat, a: Act)
    requires Scheduled(net, acts, cycle) && |acts| < |net| && n < cycle && Since(acts, n)
    requires a == Check <==> !net[|acts|].open || n + 1 >= cycle
    ensures Scheduled(net, acts + [a], cycle)
    ensures Since(acts + [a], if a == Check then 0 else n + 1)
  {
    var i, k, more := |acts|, cycle - 1, acts + [a];
    assert i + 1 >= cycle && n + 1 < cycle ==> !RefreshesBefore(acts, i, cycle - 1);
    forall j | k <= j <= i ensures RefreshesBefore(more, j, k) <==> RefreshesBefore(acts, j, k) {
      SamePast(acts, a, j, k);
    }
  }

  class Keeper {
    var timeout: int

    constructor () {
      timeout := 0;
    }

    /**
     * `unsk_keep_alive`. `acts` is what is done at the end of each interval; `done` tells whether the loop was
     * left or the given intervals are used up. A kill before the loop, while `unsk_run` opens its socket, has
     * cleared `timeout`: one interval still runs.
     */
    method KeepAlive(cycle: nat, net: seq<Interval>) returns (acts: seq<Act>, done: bool)
      requires timeout >= 0 && 1 <= cycle <= INT_MAX
      modifies this
      ensures Scheduled(net, acts, cycle)
      ensures forall i :: 0 <= i < |acts| ==> !net[i].early
      ensures !done ==> |acts| == |net|
      ensures old(timeout) == 0 && acts != [] ==> done && |acts| == 1
      ensures forall i :: 0 <= i < |acts| && net[i].killed ==> done && i == |acts| - 1
      ensures forall i :: 0 <= i < |acts| && acts[i] == Refresh && !net[i].sent ==> done && i == |acts| - 1
      ensures done && !(|acts| < |net| && net[|acts|].early) ==>
                acts != [] && var v := net[|acts| - 1];
                old(timeout) == 0 || v.killed || (acts[|acts| - 1] == Refresh && !v.sent)
    {
      ghost var cleared := timeout == 0;
      acts := [];
      var n := 0;
      assert Since(acts, n) && Scheduled(net, acts, cycle);
      hide Since, RefreshesBefore;
      while true
        invariant 0 <= n < cycle && |acts| <= |net| && (timeout == 0 <==> cleared)
        invariant Scheduled(net, acts, cycle)
        invariant Since(acts, n)
        invariant cleared ==> acts == []
        invariant forall i :: 0 <= i < |acts| ==> !net[i].early && !net[i].killed
        invariant forall i :: 0 <= i < |acts| && acts[i] == Refresh ==> net[i].sent
        decreases |net| - |acts|
      {
        if |acts| == |net| {
          return acts, false;
        }
        var v := net[|acts|];
        if v.killed {
          timeout := 0;
        }
        if v.early {
          return acts, true;
        }
        assert n + 1 <= INT_MAX;
        NextAct(net, acts, cycle, n, if !v.open || n + 1 >= cycle then Check else Refresh);
        hide Scheduled;
        if !v.open {
          acts, n := acts + [Check], 0;
        } else {
          n := n + 1;
          if n >= cycle {
            acts, n := acts + [Check], 0;
          } else {
            acts := acts + [Refresh];
            if !v.sent {
              return acts, true;
            }
          }
        }
        if timeout == 0 {
          return acts, true;
        }
      }
    }
  }

  /** Any `cycle` consecutive acts contain a check. */
  lemma WindowHasCheck(net: seq<Interval>, acts: seq<Act>, cycle: nat, k: nat)
    requires cycle >= 1 && Scheduled(net, acts, cycle) && k + cycle <= |acts|
    ensures exists i :: k <= i < k + cycle && acts[i] == Check
  {
    var last := k + cycle - 1;
    if acts[last] != Check {
      assert !RefreshesBefore(acts, last, cycle - 1);
    }
  }

  /** The acts decided one by one: `c` is the latest check before act `i`, or -1 if there is none. */
  lemma ActDecided(net: seq<Interval>, acts: seq<Act>, cycle: nat, c: int, i: nat)
    requires cycle >= 1 && Scheduled(net, acts, cycle) && -1 <= c < i < |acts|
    requires (c >= 0 ==> acts[c] == Check) && forall j :: c < j < i ==> acts[j] == Refresh
    ensures i - c <= cycle && (acts[i] == Check <==> !net[i].open || i - c == cycle)
  {
    if i - c > cycle {
      WindowHasCheck(net, acts, cycle, c + 1);
    }
    assert i - c == cycle ==> RefreshesBefore(acts, i, cycle - 1);
  }

  /** With the forwarder's socket open, a check is exactly what follows `cycle - 1` refreshes. */
  lemma CheckIff(net: seq<Interval>, acts: seq<Act>, cycle: nat, i: nat)
    requires cycle >= 1 && Scheduled(net, acts, cycle) && i < |acts| && net[i].open
    ensures i + 1 < cycle ==> acts[i] == Refresh
    ensures i + 1 >= cycle && acts[i] != Check ==> exists j :: i - (cycle - 1) <= j < i && acts[j] == Check
    ensures acts[i] == Check ==> forall j :: i - (cycle - 1) <= j < i ==> j >= 0 && acts[j] == Refresh
  {}

  /** With the forwarder's socket open throughout, the checks fall exactly on the multiples of `cycle`. */
  lemma {:induction false} ChecksOnMultiples(net: seq<Interval>, acts: seq<Act>, cycle: nat, i: nat)
    requires cycle >= 1 && Scheduled(net, acts, cycle) && i < |acts| && forall j :: 0 <= j < |net| ==> net[j].open
    ensures acts[i] == Check <==> (i + 1) % cycle == 0
    decreases i, 1
  {
    assert |acts| <= |net|;
    hide Scheduled;
    CheckIff(net, acts, cycle, i);
    if i + 1 < cycle {
      Remainder(i + 1, 0, cycle, i + 1);
    } else {
      OneOfCycle(net, acts, cycle, i, (i + 1) % cycle);
    }
  }

  /** Among the `cycle - 1` acts before `i`, those on multiples of `cycle` are the checks. */
  lemma {:induction false} OneOfCycle(net: seq<Interval>, acts: seq<Act>, cycle: nat, i: nat, r: nat)
    requires cycle >= 1 && Scheduled(net, acts, cycle) && i < |acts| && forall j :: 0 <= j < |net| ==> net[j].open
    requires i + 1 >= cycle && r == (i + 1) % cycle
    ensures acts[i] == Check <==> r == 0
    decreases i, 0
  {
    assert |acts| <= |net|;
    hide Scheduled;
    CheckIff(net, acts, cycle, i);
    RoundDown(i + 1, cycle);
    if r != 0 {
      ChecksOnMultiples(net, acts, cycle, i - r);
      assert acts[i - r] == Check;
    } else {
      forall j | i - (cycle - 1) <= j < i ensures acts[j] == Refresh {
        ChecksOnMultiples(net, acts, cycle, j);
        Between(i + 1, j + 1, cycle);
      }
    }
  }
}
