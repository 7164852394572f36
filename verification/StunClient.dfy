/** The STUN exchanges and `stun_bind` (`src/hev-stun.c`). */
module StunClient {
  import opened Keys
  import opened Options
  import opened Words
  import opened StunCodec
  import opened StunRfc
  import opened Text
  import opened ExecRun
  import opened ChangeDetector
  import opened PublicPort

  /** What the network does with one UDP try: the results of `send` and `recv`, and the buffer afterwards. */
  datatype Try = Try(sent: int, got: int, body: seq<byte>) {
    ghost predicate Valid() {
      |body| == BUFSIZE + 32 && got <= BUFSIZE
    }
  }

  /** What the network does with one TCP exchange. */
  datatype Exchange = Exchange(sent: int, head: int, header: seq<byte>, got: int, body: seq<byte>) {
    ghost predicate Valid() {
      |header| == HEADER && |body| == BUFSIZE + 32 && got <= BUFSIZE
    }
  }

  /** `udp_retry1` and `udp_retry2`. */
  const UDP_RETRY: nat := 10

  /** The try that ends the loop of `stun_udp`: the first whose send fails or whose recv succeeds. */
  ghost predicate EndsAt(net: seq<Try>, k: nat) {
    && k < |net| && (net[k].sent <= 0 || net[k].got > 0)
    && forall j :: 0 <= j < k ==> net[j].sent > 0 && net[j].got <= 0
  }

  /** `stun_udp`: sends the one packed message again and again until an answer comes. */
  method StunUdp(e: Endian, msg: Message, net: seq<Try>) returns (len: int, body: seq<byte>, sends: seq<seq<byte>>)
    requires |net| == UDP_RETRY && forall j :: 0 <= j < |net| ==> net[j].Valid()
    ensures |body| == BUFSIZE + 32 && len <= BUFSIZE
    ensures forall m <- sends :: m == Wire(e, msg)
    ensures forall k: nat :: EndsAt(net, k) ==>
              && |sends| == k + 1
              && (net[k].sent <= 0 ==> len == -1)
              && (net[k].sent > 0 ==> len == net[k].got > 0 && body == net[k].body)
    ensures (forall k :: 0 <= k < |net| ==> !EndsAt(net, k)) ==> len <= 0 && |sends| == UDP_RETRY
  {
    len, sends, body := -1, [], net[0].body;
    var i := 0;
    while i < UDP_RETRY
      invariant 0 <= i <= UDP_RETRY && |sends| == i && len <= 0 && |body| == BUFSIZE + 32
      invariant forall m <- sends :: m == Wire(e, msg)
      invariant forall j :: 0 <= j < i ==> net[j].sent > 0 && net[j].got <= 0
    {
      sends := sends + [Wire(e, msg)];
      if net[i].sent <= 0 {
        assert EndsAt(net, i);
        return -1, body, sends;
      }
      len, body := net[i].got, net[i].body;
      if len > 0 {
        assert EndsAt(net, i);
        break;
      }
      i := i + 1;
    }
  }

  /** `stun_tcp`: the reply's header overwrites the request, so the key of the decoding is the reply's own. */
  method StunTcp(e: Endian, msg: Message, net: Exchange) returns (len: int, key: Message, body: seq<byte>)
    requires net.Valid()
    ensures |body| == BUFSIZE + 32 && len <= BUFSIZE
    ensures len > 0 ==> key == Received(e, net.header) && body == net.body && len == net.got
    ensures len > 0 <==> net.sent > 0 && net.head > 0 && net.got > 0
                         && 0 < Ntohs(e, Load16(e, net.header, 2)) as nat <= BUFSIZE
  {
    key, body := msg, net.body;
    if net.sent <= 0 {
      return -1, key, body;
    }
    if net.head <= 0 {
      return -1, key, body;
    }
    key := Received(e, net.header);
    len := Ntohs(e, key.size) as int;
    if len <= 0 || len > BUFSIZE {
      return -1, key, body;
    }
    len := net.got;
  }

  // ----- which key decodes -----

  lemma ReceivedWire(e: Endian, b: seq<byte>)
    requires |b| == HEADER
    ensures Wire(e, Received(e, b))[4..20] == b[4..20]
  {
    hide Store32, Load32, Store16, Load16, Wire;
    var w := Wire(e, Received(e, b));
    forall k {:trigger w[4..20][k]} | 0 <= k < 16 ensures w[4 + k] == b[4 + k] {
      var j := k / 4;
      WireByte(e, Received(e, b), j, k % 4);
      StoreLoad32(e, b, 4 + 4 * j);
      assert b[4 + 4 * j..8 + 4 * j][k % 4] == b[4 + k];
    }
    assert forall k {:trigger w[4..20][k]} :: 0 <= k < 16 ==> w[4..20][k] == w[4 + k] == b[4 + k] == b[4..20][k];
  }

  /**
   * Over TCP the reply is decoded with its own header: for any transaction id the walk reaches the attribute, the
   * address is right, and so is the port on a little-endian host.
   */
  lemma {:induction false} TcpDecodesAnyId(e: Endian, header: seq<byte>, body: seq<byte>, len: nat, skipped: seq<Attr>,
                        f: Family, port: bv16, addr: seq<byte>, tid: seq<byte>)
    requires |header| == HEADER && header[4..20] == MAGIC_BYTES + tid && |tid| == 12
    requires Buffer(body, len) && |EncodeAll(skipped)| < len && |addr| == AddrLen(f)
    requires Holds(body, 0, EncodeAll(skipped) + Encode(XorMapped(f, port, addr, tid)))
    requires forall x <- skipped :: Unrelated(x) && |x.value| > 0 && |x.value| % 4 == 0
    ensures Unpacked(e, body, len, 0) == Some(f) && Walk(e, body, len, 0) == Some(|EncodeAll(skipped)|)
    ensures var d := Decode(e, Received(e, header), body, |EncodeAll(skipped)|);
            && AddrBytes(e, d.addr)[..|addr|] == addr
            && Ntohs(e, d.port) == (if e.Little? then port else Xor16(port, BIG_ENDIAN_ERROR))
  {
    hide Encode, EncodeAll, Wire, Received, Decode, AddrBytes, Walk, Unpacked, Ntohs, Xor16;
    ReceivedWire(e, header);
    var w := Wire(e, Received(e, header));
    assert w[4..8] == w[4..20][..4] == MAGIC_BYTES;
    assert w[8..20] == w[4..20][4..] == tid;
    XorMappedRoundTrip(e, Received(e, header), body, len, 0, skipped, f, port, addr, tid);
  }

  /**
   * Over UDP the reply is decoded with the request's header: an IPv4 address is right for any id in the reply,
   * an IPv6 address exactly when the reply carries the request's id. The port does not depend on it.
   */
  lemma {:induction false} UdpDecodesOwnId(e: Endian, r0: bv32, r1: bv32, r2: bv32, body: seq<byte>, len: nat,
                        skipped: seq<Attr>, f: Family, port: bv16, addr: seq<byte>, tid: seq<byte>)
    requires |tid| == 12 && Buffer(body, len) && HEADER + |EncodeAll(skipped)| < len && |addr| == AddrLen(f)
    requires Holds(body, HEADER, EncodeAll(skipped) + Encode(XorMapped(f, port, addr, tid)))
    requires forall x <- skipped :: Unrelated(x) && |x.value| > 0 && |x.value| % 4 == 0
    ensures Unpacked(e, body, len, HEADER) == Some(f)
    ensures Walk(e, body, len, HEADER) == Some(HEADER + |EncodeAll(skipped)|)
    ensures var key := Pack(e, r0, r1, r2);
            var d := Decode(e, key, body, HEADER + |EncodeAll(skipped)|);
            && (AddrBytes(e, d.addr)[..|addr|] == addr <==> f.Inet? || tid == Wire(e, key)[8..20])
            && Ntohs(e, d.port) == (if e.Little? then port else Xor16(port, BIG_ENDIAN_ERROR))
  {
    hide Encode, EncodeAll, Wire, Pack, Decode, AddrBytes, Walk, Unpacked, Ntohs, Xor16;
    PackIsBindingRequest(e, r0, r1, r2);
    var key := Pack(e, r0, r1, r2);
    assert Wire(e, key)[4..8] == Wire(e, key)[..8][4..8] == MAGIC_BYTES;
    XorMappedRoundTrip(e, key, body, len, HEADER, skipped, f, port, addr, tid);
  }

  /**
   * End to end for IPv4 on a little-endian host: a server encodes (address, port) as XOR-MAPPED-ADDRESS, the
   * client decodes it and prints IP4P; reading that text by its documented layout gives the pair back.
   */
  lemma {:induction false} EndToEnd(r0: bv32, r1: bv32, r2: bv32, body: seq<byte>, len: nat, skipped: seq<Attr>,
                 port: bv16, addr: seq<byte>, tid: seq<byte>)
    requires |tid| == 12 && Buffer(body, len) && HEADER + |EncodeAll(skipped)| < len && |addr| == 4
    requires Holds(body, HEADER, EncodeAll(skipped) + Encode(XorMapped(Inet, port, addr, tid)))
    requires forall x <- skipped :: Unrelated(x) && |x.value| > 0 && |x.value| % 4 == 0
    ensures var d := Decode(Little, Pack(Little, r0, r1, r2), body, HEADER + |EncodeAll(skipped)|);
            Walk(Little, body, len, HEADER) == Some(HEADER + |EncodeAll(skipped)|)
            && ParseIp4p(Ip4p(Store16(Little, d.port), AddrBytes(Little, d.addr)[..4]))
               == Some((Values(Net16(port)), Values(addr)))
  {
    hide Encode, EncodeAll, Wire, Pack, Decode, AddrBytes, Ip4p, ParseIp4p, Values, Store16, Net16, Ntohs, Walk;
    var e, key := Little, Pack(Little, r0, r1, r2);
    var d := Decode(e, key, body, HEADER + |EncodeAll(skipped)|);
    PackIsBindingRequest(e, r0, r1, r2);
    assert Wire(e, key)[4..8] == Wire(e, key)[..8][4..8] == MAGIC_BYTES;
    XorMappedRoundTrip(e, key, body, len, HEADER, skipped, Inet, port, addr, tid);
    NtohsTwice(e, d.port);
    StoreNtohs(e, Ntohs(e, d.port));
    Ip4pRoundTrip(Ip4p(Net16(port), addr), Net16(port), addr);
  }

  // ----- the client -----

  /** What a decoded reply tells `cmp_addr`. `key` is the message whose words undo the masks. */
  function Seen(e: Endian, key: Message, body: seq<byte>, len: nat, pos: nat, baddr: seq<byte>, bport: bv16): (o: Obs)
    requires Buffer(body, len) && Unpacked(e, body, len, pos).Some? && |baddr| == 16
    ensures o.Valid()
  {
    var d := Decode(e, key, body, Walk(e, body, len, pos).value);
    Obs(Unpacked(e, body, len, pos).value, AddrBytes(e, d.addr), d.port, baddr, bport)
  }

  /** The script's arguments for a binding, as they stand in the static buffers. */
  ghost predicate Announced(e: Endian, oport: string, iport: string, ip4p: string, o: Obs)
    requires o.Valid()
  {
    && ParseDecimal(oport) == Some(Ntohs(e, o.mport) as nat) && ParseDecimal(iport) == Some(Ntohs(e, o.bport) as nat)
    && (o.family.Inet? ==> ParseIp4p(ip4p) == Some((Values(Store16(e, o.mport)), Values(o.maddr[..4]))))
    && (o.family.Inet6? ==> ip4p == "")
  }

  // ----- the round trip of a binding, in the values the server encoded -----

  /** A reply as a server builds it: attributes to skip, then one mapped address, masked or not. */
  datatype Reply = Reply(xor: bool, skipped: seq<Attr>, family: Family, port: bv16, addr: seq<byte>, tid: seq<byte>) {
    ghost predicate Valid() {
      && |addr| == AddrLen(family) && |tid| == 12
      && forall x <- skipped :: Unrelated(x) && |x.value| > 0 && |x.value| % 4 == 0
    }

    /** The attribute with the address. */
    function Target(): Attr
      requires |addr| == AddrLen(family) && |tid| == 12
    {
      if xor then XorMapped(family, port, addr, tid) else Mapped(family, port, addr)
    }

    /** The port that a client on this host reads. */
    function PortRead(e: Endian): bv16 {
      if xor && e.Big? then Xor16(port, BIG_ENDIAN_ERROR) else port
    }
  }

  /** The transaction id of a request with these random words. */
  function Id(e: Endian, r0: bv32, r1: bv32, r2: bv32): seq<byte> {
    Store32(e, r0) + Store32(e, r1) + Store32(e, r2)
  }

  /** The reply lies in the buffer from `pos` on. */
  ghost predicate Carries(r: Reply, body: seq<byte>, len: nat, pos: nat) {
    && r.Valid() && Buffer(body, len) && pos + |EncodeAll(r.skipped)| < len
    && Holds(body, pos, EncodeAll(r.skipped) + Encode(r.Target()))
  }

  /** The answer that ends the tries carries the reply. */
  ghost predicate Answers(net: seq<Try>, r: Reply) {
    exists k: nat ::
      EndsAt(net, k) && net[k].sent > 0 && net[k].Valid() && Carries(r, net[k].body, net[k].got, HEADER)
  }

  /** The binding recorded is the one encoded; `exact` tells whether its address is. */
  ghost predicate Recorded(e: Endian, o: Obs, r: Reply, exact: bool, baddr: seq<byte>, bport: bv16)
    requires o.Valid() && r.Valid()
  {
    && o.family == r.family && o.baddr == baddr && o.bport == bport && Ntohs(e, o.mport) == r.PortRead(e)
    && (o.maddr[..|r.addr|] == r.addr <==> exact)
  }

  /** The script's arguments are the encoded binding and the bound port. */
  ghost predicate Told(e: Endian, oport: string, iport: string, ip4p: string, r: Reply, bport: bv16) {
    && ParseDecimal(oport) == Some(r.port as nat) && ParseDecimal(iport) == Some(Ntohs(e, bport) as nat)
    && (r.family.Inet? ==> ParseIp4p(ip4p) == Some((Values(Net16(r.port)), Values(r.addr))))
    && (r.family.Inet6? ==> ip4p == "")
  }

  lemma {:induction false} SeenIsEncoded(e: Endian, key: Message, body: seq<byte>, len: nat, pos: nat, r: Reply,
                                         baddr: seq<byte>, bport: bv16)
    requires Carries(r, body, len, pos) && |baddr| == 16 && (r.xor ==> Wire(e, key)[4..8] == MAGIC_BYTES)
    ensures Unpacked(e, body, len, pos).Some?
    ensures Recorded(e, Seen(e, key, body, len, pos, baddr, bport), r,
                     !r.xor || r.family.Inet? || Wire(e, key)[8..20] == r.tid, baddr, bport)
  {
    hide Encode, EncodeAll, Wire, Decode, AddrBytes, Walk, Unpacked, Ntohs, Xor16, Holds, XorMapped, Mapped;
    if r.xor {
      XorMappedRoundTrip(e, key, body, len, pos, r.skipped, r.family, r.port, r.addr, r.tid);
    } else {
      MappedRoundTrip(e, key, body, len, pos, r.skipped, r.family, r.port, r.addr);
    }
    assert |AddrBytes(e, Decode(e, key, body, Walk(e, body, len, pos).value).addr)| == 16;
  }

  lemma {:induction false} AnnouncedIsTold(e: Endian, oport: string, iport: string, ip4p: string, o: Obs, r: Reply,
                                           baddr: seq<byte>, bport: bv16)
    requires o.Valid() && r.Valid() && Recorded(e, o, r, true, baddr, bport) && r.PortRead(e) == r.port
    requires Announced(e, oport, iport, ip4p, o)
    ensures Told(e, oport, iport, ip4p, r, bport)
  {
    NtohsTwice(e, o.mport);
    StoreNtohs(e, Ntohs(e, o.mport));
    hide Ntohs, Store16, Net16, ParseIp4p, ParseDecimal, Values, Xor16;
  }

  class Client {
    const detector: Detector
    const buffers: Buffers
    const out: Mapping
    var mport: string
    /** Whether `handler ()` has started the forwarder. */
    var forwarding: bool
    ghost var observed: seq<Obs>
    ghost var calls: seq<Obs>

    ghost predicate Valid(e: Endian)
      reads this`mport, this`observed, this`calls, detector
    {
      && (forall o <- observed :: o.Valid())
      && Pub(detector.Mem(), mport) == BindAll(e, observed)
      && calls == Calls(ZERO, observed)
    }

    constructor (ghost e: Endian)
      ensures Valid(e) && observed == [] && fresh(detector) && fresh(buffers) && fresh(out)
    {
      detector := new Detector();
      buffers := new Buffers();
      out := new Mapping();
      mport, forwarding, observed, calls := "", false, [], [];
    }

    /** From `cmp_addr` to the script: a binding is remembered, and reported if it differs from the one before. */
    method Report(e: Endian, family: Family, maddr: seq<bv32>, newPort: bv16, baddr: seq<byte>, bport: bv16)
      requires Valid(e) && |maddr| == 4 && |baddr| == 16
      modifies this`mport, this`observed, this`calls, detector, buffers
      ensures Valid(e) && observed == old(observed) + [Obs(family, AddrBytes(e, maddr), newPort, baddr, bport)]
      ensures calls != old(calls) ==>
                Announced(e, buffers.oport, buffers.iport, buffers.ip4p,
                          Obs(family, AddrBytes(e, maddr), newPort, baddr, bport))
      ensures calls == old(calls) ==> unchanged(buffers)
    {
      hide AddrBytes, Ntohs, Store16, ParseIp4p, ParseDecimal, Values, Differs, Remember, SetMport;
      hide Calls, Bind, BindAll;
      var o := Obs(family, AddrBytes(e, maddr), newPort, baddr, bport);
      OneMore(e, observed, o);
      var exec := detector.CmpAddr(o);
      if exec != 0 {
        mport := SetMport(mport, Ntohs(e, newPort) as nat);
        buffers.Run(e, family, maddr, newPort, bport);
        calls := calls + [o];
      }
      observed := observed + [o];
    }

    /** `stun_bind` once the reply lies in the buffer. `key` is what the exchange left in `msg`. */
    method Digest(e: Endian, key: Message, body: seq<byte>, len: nat, pos: nat, baddr: seq<byte>, bport: bv16)
      returns (res: int)
      requires Valid(e) && Buffer(body, len) && pos <= HEADER && |baddr| == 16
      modifies this`mport, this`forwarding, this`observed, this`calls, detector, buffers, out
      ensures Valid(e)
      ensures res == if Unpacked(e, body, len, pos).Some? then 0 else -1
      ensures res < 0 ==> observed == old(observed) && calls == old(calls) && mport == old(mport)
      ensures res == 0 ==> forwarding && observed == old(observed) + [Seen(e, key, body, len, pos, baddr, bport)]
      ensures res == 0 && calls != old(calls) ==>
                Announced(e, buffers.oport, buffers.iport, buffers.ip4p, Seen(e, key, body, len, pos, baddr, bport))
      ensures calls == old(calls) ==> unchanged(buffers)
    {
      hide Decode, Walk, AddrBytes, Valid, Announced, Calls;
      var family := StunUnpack(e, key, body, len, pos, out);
      if family.None? {
        return -1;
      }
      forwarding := true;
      Report(e, family.value, out.addr, out.port, baddr, bport);
      return 0;
    }

    /** `stun_bind` over UDP: pack, exchange, digest behind the header. */
    method BindUdp(e: Endian, r0: bv32, r1: bv32, r2: bv32, net: seq<Try>, baddr: seq<byte>, bport: bv16)
      returns (res: int)
      requires Valid(e) && |baddr| == 16
      requires |net| == UDP_RETRY && forall j :: 0 <= j < |net| ==> net[j].Valid()
      modifies this`mport, this`forwarding, this`observed, this`calls, detector, buffers, out
      ensures Valid(e)
      ensures res < 0 ==> observed == old(observed) && calls == old(calls) && mport == old(mport)
      ensures forall k: nat :: EndsAt(net, k) && net[k].sent > 0 && net[k].Valid() ==>
                var body, len := net[k].body, net[k].got;
                && (res == 0 <==> Unpacked(e, body, len, HEADER).Some?)
                && (res == 0 ==>
                      observed == old(observed) + [Seen(e, Pack(e, r0, r1, r2), body, len, HEADER, baddr, bport)])
      ensures (forall k: nat :: EndsAt(net, k) ==> net[k].sent <= 0) ==> res == -1
      ensures forall r: Reply :: Answers(net, r) ==>
                res == 0 && Bound(e, r, !r.xor || r.family.Inet? || r.tid == Id(e, r0, r1, r2),
                                  old(observed), calls != old(calls), baddr, bport)
    {
      hide Valid, Unpacked, Walk, Decode, Pack, AddrBytes, Seen, Carries, Announced;
      var msg := Pack(e, r0, r1, r2);
      var len, body, _ := StunUdp(e, msg, net);
      if len <= 0 {
        assert forall k: nat :: EndsAt(net, k) ==> net[k].sent <= 0;
        assert forall r: Reply :: !Answers(net, r);
        return -1;
      }
      res := Digest(e, msg, body, len, HEADER, baddr, bport);
      forall r: Reply | Answers(net, r)
        ensures res == 0 && Bound(e, r, !r.xor || r.family.Inet? || r.tid == Id(e, r0, r1, r2),
                                  old(observed), calls != old(calls), baddr, bport)
      {
        var k: nat :| EndsAt(net, k) && net[k].sent > 0 && net[k].Valid()
                      && Carries(r, net[k].body, net[k].got, HEADER);
        RequestWire(e, r0, r1, r2);
        IsBound(e, msg, body, len, HEADER, r, old(observed), calls != old(calls), baddr, bport);
      }
    }

    /** `stun_bind` over TCP: the body starts at 0 and the reply's header is the key. */
    method BindTcp(e: Endian, r0: bv32, r1: bv32, r2: bv32, net: Exchange, baddr: seq<byte>, bport: bv16)
      returns (res: int)
      requires Valid(e) && |baddr| == 16 && net.Valid()
      modifies this`mport, this`forwarding, this`observed, this`calls, detector, buffers, out
      ensures Valid(e)
      ensures res < 0 ==> observed == old(observed) && calls == old(calls) && mport == old(mport)
      ensures res == 0 <==>
                && net.sent > 0 && net.head > 0 && net.got > 0
                && 0 < Ntohs(e, Load16(e, net.header, 2)) as nat <= BUFSIZE
                && Unpacked(e, net.body, net.got, 0).Some?
      ensures res == 0 ==>
                net.got > 0 && Unpacked(e, net.body, net.got, 0).Some?
                && observed == old(observed) + [Seen(e, Received(e, net.header), net.body, net.got, 0, baddr, bport)]
      ensures forall r: Reply ::
                net.sent > 0 && net.head > 0 && net.got > 0 && Carries(r, net.body, net.got, 0)
                && 0 < Ntohs(e, Load16(e, net.header, 2)) as nat <= BUFSIZE
                && net.header[4..20] == MAGIC_BYTES + r.tid ==>
                  res == 0 && Bound(e, r, true, old(observed), calls != old(calls), baddr, bport)
    {
      hide Valid, Unpacked, Walk, Decode, Pack, AddrBytes, Seen, Ntohs, Load16, Carries, Announced;
      var len, key, body := StunTcp(e, Pack(e, r0, r1, r2), net);
      if len <= 0 {
        return -1;
      }
      res := Digest(e, key, body, len, 0, baddr, bport);
      forall r: Reply | Carries(r, net.body, net.got, 0) && net.header[4..20] == MAGIC_BYTES + r.tid
        ensures res == 0 && Bound(e, r, true, old(observed), calls != old(calls), baddr, bport)
      {
        ReplyWire(e, net.header, r.tid);
        IsBound(e, key, body, len, 0, r, old(observed), calls != old(calls), baddr, bport);
      }
    }

    /**
     * The binding `r` has been recorded behind `before`; if the script was called its arguments are that binding,
     * and the stored public port is its port, unless that is 0. The port is right on a little-endian host and for
     * an unmasked address; `exact` tells whether the address is.
     */
    ghost predicate Bound(e: Endian, r: Reply, exact: bool, before: seq<Obs>, called: bool, baddr: seq<byte>,
                          bport: bv16)
      reads this`mport, this`observed, buffers
    {
      && |observed| == |before| + 1 && observed[..|before|] == before
      && var o := observed[|before|];
      && o.Valid() && r.Valid() && Recorded(e, o, r, exact, baddr, bport)
      && (r.PortRead(e) != 0 ==> mport == Decimal(r.PortRead(e) as nat))
      && (called && exact && r.PortRead(e) == r.port ==> Told(e, buffers.oport, buffers.iport, buffers.ip4p, r, bport))
    }

    lemma {:induction false} IsBound(e: Endian, key: Message, body: seq<byte>, len: nat, pos: nat, r: Reply,
                                     before: seq<Obs>, called: bool, baddr: seq<byte>, bport: bv16)
      requires Valid(e) && Carries(r, body, len, pos) && |baddr| == 16
      requires r.xor ==> Wire(e, key)[4..8] == MAGIC_BYTES
      requires Unpacked(e, body, len, pos).Some? ==> observed == before + [Seen(e, key, body, len, pos, baddr, bport)]
      requires Unpacked(e, body, len, pos).Some? && called ==>
                 Announced(e, buffers.oport, buffers.iport, buffers.ip4p, Seen(e, key, body, len, pos, baddr, bport))
      ensures Unpacked(e, body, len, pos).Some?
      ensures Bound(e, r, !r.xor || r.family.Inet? || Wire(e, key)[8..20] == r.tid, before, called, baddr, bport)
    {
      SeenIsEncoded(e, key, body, len, pos, r, baddr, bport);
      var o := Seen(e, key, body, len, pos, baddr, bport);
      var exact := !r.xor || r.family.Inet? || Wire(e, key)[8..20] == r.tid;
      assert r.Valid();
      StoredIsLatestIff(e, observed);
      hide Carries, Announced, Told, Seen, Unpacked, Wire, Decimal, BindAll, Calls, Ntohs;
      if called && exact && r.PortRead(e) == r.port {
        AnnouncedIsTold(e, buffers.oport, buffers.iport, buffers.ip4p, o, r, baddr, bport);
      }
    }
  }

  /** The request's header, as the decoding of a UDP reply uses it. */
  lemma RequestWire(e: Endian, r0: bv32, r1: bv32, r2: bv32)
    ensures var w := Wire(e, Pack(e, r0, r1, r2));
            w[4..8] == MAGIC_BYTES && w[8..20] == Id(e, r0, r1, r2)
  {
    hide Wire, Pack, Store32;
    PackIsBindingRequest(e, r0, r1, r2);
    PackCarriesRandomId(e, r0, r1, r2);
    var w := Wire(e, Pack(e, r0, r1, r2));
    assert w[4..8] == w[..8][4..8] == MAGIC_BYTES;
  }

  /** The reply's own header, as the decoding of a TCP reply uses it. */
  lemma ReplyWire(e: Endian, header: seq<byte>, tid: seq<byte>)
    requires |header| == HEADER && |tid| == 12 && header[4..20] == MAGIC_BYTES + tid
    ensures var w := Wire(e, Received(e, header)); w[4..8] == MAGIC_BYTES && w[8..20] == tid
  {
    hide Wire, Received;
    ReceivedWire(e, header);
    var w := Wire(e, Received(e, header));
    assert w[4..8] == w[4..20][..4] == MAGIC_BYTES;
    assert w[8..20] == w[4..20][4..] == tid;
  }

  /** One more binding: what is remembered and stored, and whether the script is called. */
  lemma {:induction false} OneMore(e: Endian, os: seq<Obs>, o: Obs)
    requires (forall x <- os :: x.Valid()) && o.Valid()
    ensures forall x <- os + [o] :: x.Valid()
    ensures var m := BindAll(e, os);
            && BindAll(e, os + [o])
               == Pub(Remember(o),
                      if Differs(m.memory, o) then SetMport(m.mport, Ntohs(e, o.mport) as nat) else m.mport)
            && Calls(ZERO, os + [o]) == Calls(ZERO, os) + if Differs(m.memory, o) then [o] else []
  {
    CallsSnoc(ZERO, os, o);
    assert (os + [o])[..|os|] == os;
    hide Calls, Differs, Remember, SetMport, Ntohs;
    assert MemoryAfter(ZERO, os) == BindAll(e, os).memory;
  }

  /** The memory after a run is that of its last binding. */
  function MemoryAfter(m: Memory, os: seq<Obs>): (n: Memory)
    requires m.Valid() && forall o <- os :: o.Valid()
    ensures n.Valid()
  {
    if os == [] then m else Remember(os[|os| - 1])
  }

  lemma {:induction false} CallsSnoc(m: Memory, os: seq<Obs>, o: Obs)
    requires m.Valid() && (forall x <- os :: x.Valid()) && o.Valid()
    ensures Calls(m, os + [o]) == Calls(m, os) + if Differs(MemoryAfter(m, os), o) then [o] else []
    decreases |os|
  {
    hide Differs, Remember;
    if os != [] {
      assert (os + [o])[1..] == os[1..] + [o];
      CallsSnoc(Remember(os[0]), os[1..], o);
    } else {
      assert [o][1..] == [];
    }
  }
}
