/** The memory of `cmp_addr`: the script runs only when a binding differs from the one before. */
module ChangeDetector {
  import opened Keys
  import opened StunCodec

  /** One successful binding: what `stun_bind` passes to `cmp_addr`, the address buffers as 16 bytes each. */
  datatype Obs = Obs(family: Family, maddr: seq<byte>, mport: bv16, baddr: seq<byte>, bport: bv16) {
    predicate Valid() {
      |maddr| == 16 && |baddr| == 16
    }
  }

  /** How many bytes of an address `cmp_addr` compares and copies. */
  function Width(f: Family): nat {
    if f.Inet? then 4 else 16
  }

  const NO_BYTES: seq<byte> := [0, 0, 0, 0, 0, 0, 0, 0, 0, 0, 0, 0, 0, 0, 0, 0]

  /** The four statics of `cmp_addr`. */
  datatype Memory = Memory(maddr: seq<byte>, mport: bv16, baddr: seq<byte>, bport: bv16) {
    predicate Valid() {
      |maddr| == 16 && |baddr| == 16
    }
  }

  const ZERO := Memory(NO_BYTES, 0, NO_BYTES, 0)

  function Stored(f: Family, addr: seq<byte>): (m: seq<byte>)
    requires |addr| == 16
    ensures |m| == 16
  {
    if f.Inet? then addr[..4] + NO_BYTES[4..] else addr
  }

  function Remember(o: Obs): (m: Memory)
    requires o.Valid()
    ensures m.Valid()
  {
    Memory(Stored(o.family, o.maddr), o.mport, Stored(o.family, o.baddr), o.bport)
  }

  /** Some compared field differs from the memory. */
  predicate Differs(m: Memory, o: Obs)
    requires m.Valid() && o.Valid()
  {
    var n := Width(o.family);
    m.mport != o.mport || m.bport != o.bport || m.maddr[..n] != o.maddr[..n] || m.baddr[..n] != o.baddr[..n]
  }

  /** `memcmp`, its value as C bits: the difference of the first two bytes that differ. */
  function MemcmpBits(a: seq<byte>, b: seq<byte>): bv32
    requires |a| == |b|
  {
    if a == [] then 0
    else if a[0] != b[0] then (a[0] as bv32) - (b[0] as bv32)
    else MemcmpBits(a[1..], b[1..])
  }

  lemma {:induction false} MemcmpBitsZero(a: seq<byte>, b: seq<byte>)
    requires |a| == |b|
    ensures MemcmpBits(a, b) == 0 <==> a == b
  {
    if a != [] {
      if a[0] == b[0] {
        MemcmpBitsZero(a[1..], b[1..]);
        assert a == [a[0]] + a[1..] && b == [b[0]] + b[1..];
      } else {
        ByteGap(a[0], b[0]);
      }
    }
  }

  lemma ByteGap(x: byte, y: byte)
    requires x != y
    ensures (x as bv32) - (y as bv32) != 0
  {}

  /** C's `|` on `int`. */
  function Or(a: bv32, b: bv32): bv32 {
    a | b
  }

  lemma OrZero(a: bv32, b: bv32)
    ensures Or(a, b) == 0 <==> a == 0 && b == 0
  {}

  class Detector {
    var pmaddr: seq<byte>
    var pbaddr: seq<byte>
    var pmport: bv16
    var pbport: bv16

    function Mem(): Memory
      reads this
    {
      Memory(pmaddr, pmport, pbaddr, pbport)
    }

    constructor ()
      ensures Mem() == ZERO
    {
      pmaddr, pbaddr, pmport, pbport := NO_BYTES, NO_BYTES, 0, 0;
    }

    /** `cmp_addr`: nonzero if and only if some compared field differs; the memory then holds this binding. */
    method CmpAddr(o: Obs) returns (res: bv32)
      requires Mem().Valid() && o.Valid()
      modifies this
      ensures res != 0 <==> Differs(old(Mem()), o)
      ensures Mem() == Remember(o)
    {
      hide Or;
      res := 0;
      if pbport != o.bport {
        OrZero(res, 0xFFFF_FFFF);
        res := Or(res, 0xFFFF_FFFF);
      }
      pbport := o.bport;
      if pmport != o.mport {
        OrZero(res, 0xFFFF_FFFF);
        res := Or(res, 0xFFFF_FFFF);
      }
      pmport := o.mport;
      match o.family
      case Inet =>
        MemcmpBitsZero(pmaddr[..4], o.maddr[..4]);
        MemcmpBitsZero(pbaddr[..4], o.baddr[..4]);
        OrZero(res, MemcmpBits(pmaddr[..4], o.maddr[..4]));
        res := Or(res, MemcmpBits(pmaddr[..4], o.maddr[..4]));
        pmaddr := o.maddr[..4] + NO_BYTES[4..];
        OrZero(res, MemcmpBits(pbaddr[..4], o.baddr[..4]));
        res := Or(res, MemcmpBits(pbaddr[..4], o.baddr[..4]));
        pbaddr := o.baddr[..4] + NO_BYTES[4..];
      case Inet6 =>
        assert o.maddr == o.maddr[..16] && o.baddr == o.baddr[..16] && pmaddr == pmaddr[..16] && pbaddr == pbaddr[..16];
        MemcmpBitsZero(pmaddr, o.maddr);
        MemcmpBitsZero(pbaddr, o.baddr);
        OrZero(res, MemcmpBits(pmaddr, o.maddr));
        res := Or(res, MemcmpBits(pmaddr, o.maddr));
        pmaddr := o.maddr;
        OrZero(res, MemcmpBits(pbaddr, o.baddr));
        res := Or(res, MemcmpBits(pbaddr, o.baddr));
        pbaddr := o.baddr;
    }
  }

  // ----- runs of bindings -----

  /** What of a binding counts: the address bytes of its family and the ports. */
  datatype Signature = Signature(maddr: seq<byte>, mport: bv16, baddr: seq<byte>, bport: bv16)

  function Sig(o: Obs): Signature
    requires o.Valid()
  {
    Signature(o.maddr[..Width(o.family)], o.mport, o.baddr[..Width(o.family)], o.bport)
  }

  /** The all-zero memory, seen as a binding of family `f`. */
  function ZeroSig(f: Family): Signature {
    Signature(NO_BYTES[..Width(f)], 0, NO_BYTES[..Width(f)], 0)
  }

  /** The bindings of a run for which the script is called, from a given memory. */
  function Calls(m: Memory, os: seq<Obs>): (calls: seq<Obs>)
    requires m.Valid() && forall o <- os :: o.Valid()
    ensures forall o <- calls :: o.Valid()
    decreases |os|
  {
    if os == [] then []
    else (if Differs(m, os[0]) then [os[0]] else []) + Calls(Remember(os[0]), os[1..])
  }

  /** A sequence without its consecutive repeats, an element equal to `prev` in front counting as a repeat. */
  function Squeeze<T(==)>(prev: T, xs: seq<T>): seq<T> {
    if xs == [] then []
    else if xs[0] == prev then Squeeze(prev, xs[1..])
    else [xs[0]] + Squeeze(xs[0], xs[1..])
  }

  /** `Squeeze` keeps exactly the elements that differ from the one before them. */
  lemma {:induction false} SqueezeKeepsChanges<T>(prev: T, xs: seq<T>, i: nat)
    requires i < |xs|
    ensures var p := if i == 0 then prev else xs[i - 1];
            Squeeze(prev, xs)
            == Squeeze(prev, xs[..i]) + (if xs[i] == p then [] else [xs[i]]) + Squeeze(xs[i], xs[i + 1..])
  {
    if i == 0 {
      assert xs[..0] == [];
    } else {
      SqueezeKeepsChanges(xs[0], xs[1..], i - 1);
      assert xs[..i][1..] == xs[1..][..i - 1] && xs[1..][i..] == xs[i + 1..];
      assert xs[1..][i - 1] == xs[i];
      assert xs[..i][0] == xs[0];
    }
  }

  function Sigs(os: seq<Obs>): (r: seq<Signature>)
    requires forall o <- os :: o.Valid()
    ensures |r| == |os|
    ensures forall i :: 0 <= i < |os| ==> r[i] == Sig(os[i])
  {
    seq(|os|, i requires 0 <= i < |os| => Sig(os[i]))
  }

  /** The script calls of a single-family run are the observations without consecutive repeats. */
  lemma {:induction false} CallsAreChanges(f: Family, os: seq<Obs>)
    requires forall o <- os :: o.Valid() && o.family == f
    ensures Sigs(Calls(ZERO, os)) == Squeeze(ZeroSig(f), Sigs(os))
  {
    CallsFrom(f, ZERO, ZeroSig(f), os);
  }

  /** A memory, seen as a binding of family `f`. */
  function SeenAs(f: Family, m: Memory): Signature
    requires m.Valid()
  {
    Signature(m.maddr[..Width(f)], m.mport, m.baddr[..Width(f)], m.bport)
  }

  /** Within one family the memory acts as the signature of the binding before. */
  lemma MemoryIsSignature(m: Memory, o: Obs)
    requires m.Valid() && o.Valid()
    ensures Differs(m, o) <==> SeenAs(o.family, m) != Sig(o)
    ensures SeenAs(o.family, Remember(o)) == Sig(o)
  {
    if o.family.Inet? {
      assert Stored(Inet, o.maddr)[..4] == o.maddr[..4] && Stored(Inet, o.baddr)[..4] == o.baddr[..4];
    }
  }

  lemma {:induction false} CallsFrom(f: Family, m: Memory, p: Signature, os: seq<Obs>)
    requires forall o <- os :: o.Valid() && o.family == f
    requires m.Valid() && p == SeenAs(f, m)
    ensures Sigs(Calls(m, os)) == Squeeze(p, Sigs(os))
    decreases |os|
  {
    hide Differs, Remember, Sig, SeenAs;
    if os != [] {
      var o := os[0];
      MemoryIsSignature(m, o);
      CallsFrom(f, Remember(o), Sig(o), os[1..]);
      assert Sigs(os)[1..] == Sigs(os[1..]);
      if Differs(m, o) {
        assert Sigs(Calls(m, os)) == [Sig(o)] + Sigs(Calls(Remember(o), os[1..]));
      } else {
        assert Calls(m, os) == Calls(Remember(o), os[1..]);
      }
    }
  }

  /** For IPv4 the words beyond the first, which `stun_unpack` leaves arbitrary, neither cause nor suppress a call. */
  lemma TailIgnored(m: Memory, o: Obs, maddr: seq<byte>, baddr: seq<byte>)
    requires m.Valid() && o.Valid() && o.family.Inet? && |maddr| == 16 && |baddr| == 16
    requires maddr[..4] == o.maddr[..4] && baddr[..4] == o.baddr[..4]
    ensures Differs(m, o.(maddr := maddr, baddr := baddr)) <==> Differs(m, o)
    ensures Remember(o.(maddr := maddr, baddr := baddr)) == Remember(o)
  {}

  /**
   * When the family changes between two bindings, the change goes unnoticed exactly when the ports agree and,
   * towards IPv4, both IPv6 addresses begin with the new IPv4 bytes, or, towards IPv6, both new addresses are
   * the old IPv4 bytes followed by zeros.
   */
  lemma FamilyChangeUnnoticedIff(p: Obs, o: Obs)
    requires p.Valid() && o.Valid() && p.family != o.family
    ensures !Differs(Remember(p), o) <==>
            && p.mport == o.mport && p.bport == o.bport
            && p.maddr[..4] == o.maddr[..4] && p.baddr[..4] == o.baddr[..4]
            && (o.family.Inet6? ==> o.maddr[4..] == NO_BYTES[4..] && o.baddr[4..] == NO_BYTES[4..])
  {
    var m := Remember(p);
    if o.family.Inet6? {
      assert o.maddr == o.maddr[..4] + o.maddr[4..] && o.baddr == o.baddr[..4] + o.baddr[4..];
      assert m.maddr[..16] == m.maddr && m.baddr[..16] == m.baddr;
      assert o.maddr[..16] == o.maddr && o.baddr[..16] == o.baddr;
      assert m.maddr[..4] == p.maddr[..4] && m.maddr[4..] == NO_BYTES[4..];
      assert m.baddr[..4] == p.baddr[..4] && m.baddr[4..] == NO_BYTES[4..];
    }
  }
}
