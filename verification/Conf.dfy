/**
 * The tail of `hev_conf_init` and the port iterator `hev_conf_bport` (`src/hev-conf.c`), with the retry loop of
 * the keepers.
 */
module Conf {
  import opened Text
  import opened Remainders

  /** What the option loop leaves behind. `sep` is the separator of `-b`, never written when there is none. */
  datatype Raw = Raw(tcp: bool, keep: int, ucount: nat, tmsec: int, stun: string, http: string,
                     taddr: bool, tport: bool, lo: int, hi: int, sep: char)

  /** Ports as `-b` documents them. */
  predicate InRange(r: Raw) {
    0 <= r.lo <= 65535 && 0 <= r.hi <= 65535
  }

  /** The successor of a port in its range. */
  function Next(lo: int, hi: int, cur: int): int {
    if cur + 1 > hi then lo else cur + 1
  }

  /** The port of the range that a value of `rand ()` draws. */
  function Drawn(lo: int, hi: int, rnd: nat): (p: int)
    requires lo <= hi
    ensures lo <= p <= hi
  {
    var n := hi - lo + 1;
    assert 0 <= rnd % n < n;
    lo + rnd % n
  }

  /** Each block of as many random values as the range has ports draws every port once, from the low end upwards. */
  lemma DrawsAny(lo: int, hi: int, block: nat, d: nat)
    requires lo <= hi && d <= hi - lo
    ensures block * (hi - lo + 1) + d >= 0
    ensures Drawn(lo, hi, block * (hi - lo + 1) + d) == lo + d
  {
    var x: nat := block * (hi - lo + 1) + d;
    Remainder(x, block, hi - lo + 1, d);
  }

  class Settings {
    var keep: int
    var ucount: nat
    var tmsec: int
    var brand: bool
    var lo: int
    var hi: int
    var cur: int
    /** The static buffer of `hev_conf_bport`. */
    var port: string

    predicate Valid()
      reads this
    {
      0 <= lo <= hi <= 65535 && lo <= cur <= hi
    }

    constructor ()
      ensures port == "" && !brand
    {
      keep, ucount, tmsec, brand, lo, hi, cur, port := 0, 0, 0, false, 0, 0, 0, "";
    }

    /** `hev_conf_init` after its option loop. */
    method Init(r: Raw) returns (res: int)
      requires port == "" && !brand
      modifies this
      ensures res == 0 || res == -1
      ensures res == 0 <==>
              |r.stun| > 0 && (r.tcp ==> |r.http| > 0) && (r.taddr <==> r.tport) && (r.hi == 0 || r.lo <= r.hi)
      ensures res == 0 ==>
                && (InRange(r) ==> Valid()) && port == ""
                && lo == r.lo == cur && hi == (if r.hi != 0 then r.hi else r.lo) && (brand <==> r.sep == '~')
                && keep == (if r.keep > 0 then r.keep else if r.tcp then 30000 else 10000)
                && ucount == (if r.ucount > 0 then r.ucount else 10)
                && tmsec == (if r.tmsec > 0 then r.tmsec else 300000)
    {
      keep, ucount, tmsec, lo, hi := r.keep, r.ucount, r.tmsec, r.lo, r.hi;
      if |r.stun| == 0 {
        return -1;
      }
      if r.tcp && |r.http| == 0 {
        return -1;
      }
      if (r.taddr && !r.tport) || (!r.taddr && r.tport) {
        return -1;
      }
      Defaults(r);
      if lo > hi {
        return -1;
      }
      if tmsec <= 0 {
        tmsec := 300000;
      }
      return 0;
    }

    /** The values that stand for missing ones, and the range of ports. */
    method Defaults(r: Raw)
      requires !brand && keep == r.keep && ucount == r.ucount && lo == r.lo && hi == r.hi
      modifies this`keep, this`ucount, this`brand, this`hi, this`cur
      ensures keep == (if r.keep > 0 then r.keep else if r.tcp then 30000 else 10000)
      ensures ucount == (if r.ucount > 0 then r.ucount else 10)
      ensures (brand <==> r.sep == '~') && hi == (if r.hi != 0 then r.hi else r.lo) && cur == lo
    {
      if keep <= 0 {
        keep := if r.tcp then 30 else 10;
        keep := keep * 1000;
      }
      if ucount <= 0 {
        ucount := 10;
      }
      if r.sep == '~' {
        brand := true;
      }
      if hi == 0 {
        hi := lo;
      }
      cur := lo;
    }

    /** `hev_conf_bport`. `rnd` is what `rand ()` returns. */
    method Bport(next: bool, rnd: nat) returns (p: string)
      requires Valid()
      modifies this`port, this`cur
      ensures Valid() && p == port
      ensures old(port) != "" && !next ==> port == old(port) && cur == old(cur)
      ensures old(port) == "" || next ==>
                && (brand ==> cur == Drawn(lo, hi, rnd) && port == Decimal(cur))
                && (!brand ==> port == Decimal(old(cur)) && cur == Next(lo, hi, old(cur)))
    {
      hide Decimal, Drawn;
      if port == "" || next {
        if brand {
          cur := Drawn(lo, hi, rnd);
        }
        port := Decimal(cur);
        if !brand {
          cur := cur + 1;
          if cur > hi {
            cur := lo;
          }
        }
      }
      p := port;
    }
  }

  /** How many of these starts failed. */
  function Failures(failed: seq<bool>): nat {
    if failed == [] then 0 else Failures(failed[..|failed| - 1]) + (if failed[|failed| - 1] then 1 else 0)
  }

  /** The port a sequential allocation uses after `f` failed starts. */
  function Sequential(lo: int, hi: int, f: nat): (p: int)
    requires lo <= hi
    ensures lo <= p <= hi
  {
    assert 0 <= f % (hi - lo + 1) < hi - lo + 1;
    lo + f % (hi - lo + 1)
  }

  /** The port of start `k` of a sequential run. */
  function PortAt(lo: int, hi: int, failed: seq<bool>, k: nat): int
    requires lo <= hi && k <= |failed|
  {
    Sequential(lo, hi, Failures(failed[..k]))
  }

  /** `used` is a port of the range, printed. */
  predicate Printed(lo: int, hi: int, used: string, p: int) {
    lo <= p <= hi && p >= 0 && used == Decimal(p)
  }

  /**
   * The retry of `tnsk_run` and `unsk_run` over a whole run: start `k` asks for a new port only if start `k - 1`
   * failed. `failed` and `rnds` say how the starts end and what `rand ()` returns.
   */
  method Starts(conf: Settings, failed: seq<bool>, rnds: seq<nat>) returns (used: seq<string>, ghost ports: seq<int>)
    requires conf.Valid() && conf.port == "" && conf.cur == conf.lo && |rnds| == |failed|
    modifies conf`port, conf`cur
    ensures |used| == |ports| == |failed|
    ensures forall k :: 0 <= k < |used| ==> Printed(conf.lo, conf.hi, used[k], ports[k])
    ensures !conf.brand ==> forall k :: 0 <= k < |used| ==> ports[k] == PortAt(conf.lo, conf.hi, failed, k)
    ensures conf.brand ==>
              forall k :: 0 <= k < |used| && (k == 0 || failed[k - 1]) ==> ports[k] == Drawn(conf.lo, conf.hi, rnds[k])
    ensures forall k :: 0 < k < |used| && !failed[k - 1] ==> used[k] == used[k - 1]
    ensures conf.lo == conf.hi ==> forall k :: 0 <= k < |used| ==> used[k] == Decimal(conf.lo)
  {
    hide Decimal, Failures, Sequential, Drawn, Next;
    used, ports := [], [];
    var portNext := false;
    ghost var lo, hi := conf.lo, conf.hi;
    NoFailures(failed);
    SequentialStart(lo, hi);
    for i := 0 to |failed|
      invariant conf.Valid() && conf.lo == lo && conf.hi == hi && |used| == |ports| == i
      invariant i == 0 ==> conf.port == "" && conf.cur == lo
      invariant i > 0 ==> conf.port == used[i - 1] && conf.port != "" && portNext == failed[i - 1]
      invariant forall k :: 0 <= k < i ==> Printed(lo, hi, used[k], ports[k])
      invariant !conf.brand ==> forall k :: 0 <= k < i ==> ports[k] == PortAt(lo, hi, failed, k)
      invariant conf.brand ==>
                  forall k :: 0 <= k < i && (k == 0 || failed[k - 1]) ==> ports[k] == Drawn(lo, hi, rnds[k])
      invariant !conf.brand && i > 0 ==> conf.cur == Next(lo, hi, PortAt(lo, hi, failed, i - 1))
      invariant forall k :: 0 < k < i && !failed[k - 1] ==> used[k] == used[k - 1]
    {
      if i > 0 {
        PortStep(lo, hi, failed, i);
      }
      ghost var before := conf.cur;
      var p := conf.Bport(portNext, rnds[i]);
      ghost var q := if i > 0 && !portNext then ports[i - 1] else if conf.brand then conf.cur else before;
      used, ports := used + [p], ports + [q];
      portNext := failed[i];
    }
  }

  lemma NoFailures(failed: seq<bool>)
    ensures Failures(failed[..0]) == 0
  {
    assert failed[..0] == [];
  }

  lemma SequentialStart(lo: int, hi: int)
    requires lo <= hi
    ensures Sequential(lo, hi, 0) == lo
  {
    Remainder(0, 0, hi - lo + 1, 0);
  }

  /** The port changes only after a failed start, and then to the next of the range. */
  lemma PortStep(lo: int, hi: int, failed: seq<bool>, i: nat)
    requires lo <= hi && 0 < i <= |failed|
    ensures PortAt(lo, hi, failed, i)
         == var p := PortAt(lo, hi, failed, i - 1); if failed[i - 1] then Next(lo, hi, p) else p
  {
    assert failed[..i][..i - 1] == failed[..i - 1];
    Successor(Failures(failed[..i - 1]), hi - lo + 1);
  }

  lemma {:induction false} FailuresRun(failed: seq<bool>, k: nat, j: nat)
    requires k + j <= |failed| && forall i :: k <= i < k + j ==> failed[i]
    ensures Failures(failed[..k + j]) == Failures(failed[..k]) + j
  {
    if j > 0 {
      FailuresRun(failed, k, j - 1);
      assert failed[..k + j][..k + j - 1] == failed[..k + j - 1];
    }
  }

  /** The port after `i - k` failures in a row, `r` being the offset at start `k`. */
  lemma PortAfter(lo: int, hi: int, failed: seq<bool>, k: nat, i: nat, r: nat)
    requires lo <= hi && k <= i <= k + (hi - lo) && i <= |failed| && r == Failures(failed[..k]) % (hi - lo + 1)
    requires forall j :: k <= j < i ==> failed[j]
    ensures r <= hi - lo
    ensures PortAt(lo, hi, failed, i)
         == lo + (if r + (i - k) <= hi - lo then r + (i - k) else r + (i - k) - (hi - lo + 1))
  {
    FailuresRun(failed, k, i - k);
    assert failed[..k + (i - k)] == failed[..i];
    Round(Failures(failed[..k]), i - k, hi - lo + 1);
    RoundDown(Failures(failed[..k]), hi - lo + 1);
  }

  /** Any `hi - lo + 1` consecutive failed starts of a sequential allocation try every port exactly once. */
  lemma EveryPortOnce(lo: int, hi: int, failed: seq<bool>, k: nat, p: int)
    requires lo <= p <= hi && k + (hi - lo + 1) <= |failed|
    requires forall i :: k <= i < k + (hi - lo + 1) ==> failed[i]
    ensures exists i :: k <= i <= k + (hi - lo) && PortAt(lo, hi, failed, i) == p
    ensures forall i, j :: k <= i < j <= k + (hi - lo) ==> PortAt(lo, hi, failed, i) != PortAt(lo, hi, failed, j)
  {
    var n := hi - lo + 1;
    var r := Failures(failed[..k]) % n;
    hide PortAt, Failures;
    PortAfter(lo, hi, failed, k, k, r);
    forall i | k <= i <= k + (hi - lo)
      ensures PortAt(lo, hi, failed, i) == lo + (if r + (i - k) < n then r + (i - k) else r + (i - k) - n)
    {
      PortAfter(lo, hi, failed, k, i, r);
    }
    var q := p - lo;
    assert PortAt(lo, hi, failed, k + (if q >= r then q - r else q - r + n)) == p;
  }

  // ----- from the options to the ports -----

  /** The starts from `k` on, as many as there are ports from `lo` to `hi`, all fail. */
  predicate AllFail(failed: seq<bool>, lo: int, hi: int, k: nat) {
    k + (hi - lo + 1) <= |failed| && forall i :: k <= i < k + (hi - lo + 1) ==> failed[i]
  }

  /** Exactly one of the starts from `k` on uses port `p`. */
  predicate UsedOnce(used: seq<string>, lo: int, hi: int, k: nat, p: nat) {
    exists i :: k <= i <= k + (hi - lo) && i < |used| && used[i] == Decimal(p)
      && forall j :: k <= j <= k + (hi - lo) && j < |used| && used[j] == Decimal(p) ==> j == i
  }

  /** `used` is the text of a port that `-b` asks for. */
  ghost predicate Asked(r: Raw, used: string) {
    exists p: nat :: (r.lo <= p <= r.hi || (r.hi == 0 && p == r.lo)) && used == Decimal(p)
  }

  /**
   * `hev_conf_init` and then any run of starts, on the options alone: every port used is one that `-b` asks for, and
   * without `~` any round of failures uses each of them once.
   */
  method Allocate(conf: Settings, r: Raw, failed: seq<bool>, rnds: seq<nat>) returns (res: int, used: seq<string>)
    requires conf.port == "" && !conf.brand && InRange(r) && |rnds| == |failed|
    modifies conf
    ensures if res == 0 then |used| == |failed| else used == []
    ensures 0 < r.hi < r.lo ==> res == -1
    ensures forall k :: 0 <= k < |used| ==> Asked(r, used[k])
    ensures res == 0 && r.sep != '~' && r.hi != 0 ==>
              forall k: nat, p: nat :: AllFail(failed, r.lo, r.hi, k) && r.lo <= p <= r.hi ==>
                UsedOnce(used, r.lo, r.hi, k, p)
    ensures forall k :: 0 < k < |used| && !failed[k - 1] ==> used[k] == used[k - 1]
  {
    hide Decimal, Failures, Sequential, Drawn, PortAt;
    res := conf.Init(r);
    if res != 0 {
      return res, [];
    }
    ghost var ports;
    used, ports := Starts(conf, failed, rnds);
    forall k | 0 <= k < |used| ensures Asked(r, used[k]) {
      assert Printed(conf.lo, conf.hi, used[k], ports[k]);
    }
    if r.sep != '~' && r.hi != 0 {
      forall k: nat, p: nat | AllFail(failed, r.lo, r.hi, k) && r.lo <= p <= r.hi
        ensures UsedOnce(used, r.lo, r.hi, k, p)
      {
        RoundUsesOnce(r.lo, r.hi, failed, used, ports, k, p);
      }
    }
  }

  lemma RoundUsesOnce(lo: int, hi: int, failed: seq<bool>, used: seq<string>, ports: seq<int>, k: nat, p: nat)
    requires lo <= p <= hi && AllFail(failed, lo, hi, k) && |used| == |ports| == |failed|
    requires forall i :: 0 <= i < |used| ==> Printed(lo, hi, used[i], ports[i])
    requires forall i :: 0 <= i < |used| ==> ports[i] == PortAt(lo, hi, failed, i)
    ensures UsedOnce(used, lo, hi, k, p)
  {
    hide Decimal, PortAt;
    EveryPortOnce(lo, hi, failed, k, p);
    var i :| k <= i <= k + (hi - lo) && PortAt(lo, hi, failed, i) == p;
    assert Printed(lo, hi, used[i], ports[i]) && ports[i] == p;
    forall j | k <= j <= k + (hi - lo) && j < |used| && used[j] == Decimal(p) ensures j == i {
      assert Printed(lo, hi, used[j], ports[j]);
      DecimalInjective(ports[j], p);
      assert PortAt(lo, hi, failed, j) == PortAt(lo, hi, failed, i);
    }
  }
}
