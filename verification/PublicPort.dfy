/** The stored public port (`hev_conf_mport`) against the bindings STUN reports. */
module PublicPort {
  import opened Words
  import opened Text
  import opened ChangeDetector

  /** The memory of `cmp_addr` and the text in `mport`. */
  datatype Pub = Pub(memory: Memory, mport: string)

  const START := Pub(ZERO, "")

  /** `hev_conf_mport (port)`: stores only a positive number. */
  function SetMport(mport: string, port: nat): string {
    if port > 0 then Decimal(port) else mport
  }

  /** The port number a binding reports. */
  function PortOf(e: Endian, o: Obs): nat {
    Ntohs(e, o.mport) as nat
  }

  /** One successful binding, from `cmp_addr` to `hev_conf_mport`. */
  function Bind(e: Endian, s: Pub, o: Obs): (t: Pub)
    requires s.memory.Valid() && o.Valid()
    ensures t.memory.Valid()
  {
    Pub(Remember(o), if Differs(s.memory, o) then SetMport(s.mport, PortOf(e, o)) else s.mport)
  }

  function BindAll(e: Endian, os: seq<Obs>): (t: Pub)
    requires forall o <- os :: o.Valid()
    ensures t.memory.Valid()
  {
    if os == [] then START else Bind(e, BindAll(e, os[..|os| - 1]), os[|os| - 1])
  }

  /** What every state of a run satisfies: the text is the remembered port, unless that port is 0. */
  ghost predicate Agrees(e: Endian, s: Pub) {
    var port := Ntohs(e, s.memory.mport) as nat;
    && s.memory.Valid()
    && (port != 0 ==> s.mport == Decimal(port))
    && (port == 0 ==> s.mport == "" || exists q: nat :: q > 0 && s.mport == Decimal(q))
  }

  lemma StartAgrees(e: Endian)
    ensures Agrees(e, START)
  {
    NoPort(e);
  }

  lemma NoPort(e: Endian)
    ensures Ntohs(e, 0) == 0
  {}

  lemma BindAgrees(e: Endian, s: Pub, o: Obs)
    requires Agrees(e, s) && o.Valid()
    ensures Agrees(e, Bind(e, s, o))
  {
    hide Ntohs, Decimal, Stored;
    var old_, new_ := Ntohs(e, s.memory.mport) as nat, PortOf(e, o);
    if old_ != 0 && new_ == 0 {
      assert s.mport == Decimal(old_);
    }
  }

  lemma {:induction false} RunAgrees(e: Endian, os: seq<Obs>)
    requires forall o <- os :: o.Valid()
    ensures Agrees(e, BindAll(e, os))
  {
    if os == [] {
      StartAgrees(e);
    } else {
      RunAgrees(e, os[..|os| - 1]);
      BindAgrees(e, BindAll(e, os[..|os| - 1]), os[|os| - 1]);
    }
  }

  /**
   * After any run of bindings the stored text is the decimal of the latest port observed if and only if that
   * port is not 0.
   */
  lemma {:induction false} StoredIsLatestIff(e: Endian, os: seq<Obs>)
    requires os != [] && forall o <- os :: o.Valid()
    ensures var port := PortOf(e, os[|os| - 1]);
            BindAll(e, os).mport == Decimal(port) <==> port != 0
  {
    hide Decimal, Ntohs;
    var port := PortOf(e, os[|os| - 1]);
    RunAgrees(e, os);
    if port == 0 && BindAll(e, os).mport == Decimal(0) {
      var q: nat :| q > 0 && BindAll(e, os).mport == Decimal(q);
      DecimalInjective(0, q);
    }
  }

  /** A port of 0 stores nothing: the text is the decimal of the latest port that is not 0, however long ago. */
  lemma {:induction false} StoredIsLatestNonzero(e: Endian, os: seq<Obs>, k: nat)
    requires (forall o <- os :: o.Valid()) && k < |os| && PortOf(e, os[k]) != 0
    requires forall j :: k < j < |os| ==> PortOf(e, os[j]) == 0
    ensures BindAll(e, os).mport == Decimal(PortOf(e, os[k]))
  {
    hide Decimal, PortOf;
    if k == |os| - 1 {
      StoredIsLatestIff(e, os);
    } else {
      StoredIsLatestNonzero(e, os[..|os| - 1], k);
      hide Differs, Remember;
    }
  }

  /** And it is empty as long as every port is 0. */
  lemma {:induction false} NothingStored(e: Endian, os: seq<Obs>)
    requires forall o <- os :: o.Valid() && PortOf(e, o) == 0
    ensures BindAll(e, os).mport == ""
  {
    hide Differs, Remember, PortOf;
    if os != [] {
      NothingStored(e, os[..|os| - 1]);
    }
  }
}
