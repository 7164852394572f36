/** The STUN message and its attribute walk (`src/hev-stun.c`), byte for byte. */
module StunCodec {
  import opened Keys
  import opened Words
  import opened Options

  const BUFSIZE := 2048
  const HEADER := 20
  const MAGIC: bv32 := 0x2112A442
  const MAPPED_ADDR: bv16 := 0x0001
  const XOR_MAPPED_ADDR: bv16 := 0x0020

  datatype Family = Inet | Inet6

  /** `StunMessage`, its fields as loaded words. */
  datatype Message = Message(kind: bv16, size: bv16, magic: bv32, tid0: bv32, tid1: bv32, tid2: bv32)

  /** The bytes of a message in memory: what `send` puts on the wire. */
  function Wire(e: Endian, m: Message): (b: seq<byte>)
    ensures |b| == HEADER
  {
    Store16(e, m.kind) + Store16(e, m.size) + Store32(e, m.magic)
    + Store32(e, m.tid0) + Store32(e, m.tid1) + Store32(e, m.tid2)
  }

  /** A message as `recv` leaves it in memory. */
  function Received(e: Endian, b: seq<byte>): Message
    requires |b| == HEADER
  {
    Message(Load16(e, b, 0), Load16(e, b, 2), Load32(e, b, 4), Load32(e, b, 8), Load32(e, b, 12), Load32(e, b, 16))
  }

  /** `stun_pack`, the random words given. */
  function Pack(e: Endian, r0: bv32, r1: bv32, r2: bv32): Message {
    Message(Ntohs(e, 1), Ntohs(e, 0), Ntohl(e, MAGIC), r0, r1, r2)
  }

  const MAGIC_BYTES: seq<byte> := [0x21, 0x12, 0xA4, 0x42]

  /** Section 6 of RFC 5389: a Binding request of length 0 with the magic cookie. */
  lemma PackIsBindingRequest(e: Endian, r0: bv32, r1: bv32, r2: bv32)
    ensures Wire(e, Pack(e, r0, r1, r2))[..8] == [0x00, 0x01, 0x00, 0x00] + MAGIC_BYTES
  {
    var m := Pack(e, r0, r1, r2);
    StoreNtohs(e, 1);
    StoreNtohs(e, 0);
    StoreNtohl(e, MAGIC);
    assert Wire(e, m)[..2] == Store16(e, m.kind);
    assert Wire(e, m)[2..4] == Store16(e, m.size);
    assert Wire(e, m)[4..8] == Store32(e, m.magic);
    assert Wire(e, m)[..8] == Wire(e, m)[..2] + Wire(e, m)[2..4] + Wire(e, m)[4..8];
  }

  /** The transaction id on the wire is the three random words. */
  lemma PackCarriesRandomId(e: Endian, r0: bv32, r1: bv32, r2: bv32)
    ensures Wire(e, Pack(e, r0, r1, r2))[8..20] == Store32(e, r0) + Store32(e, r1) + Store32(e, r2)
  {
    hide Store32, Store16, Ntohs, Ntohl;
  }

  // ----- the walk of `stun_unpack` -----

  /** `body` is the whole `buf[BUFSIZE + 32]`, of which `len` bytes were received. */
  ghost predicate Buffer(body: seq<byte>, len: nat) {
    |body| == BUFSIZE + 32 && len <= BUFSIZE
  }

  function KindAt(e: Endian, body: seq<byte>, i: nat): bv16
    requires i + 4 <= |body|
  {
    Load16(e, body, i)
  }

  function SizeAt(e: Endian, body: seq<byte>, i: nat): (n: nat)
    requires i + 4 <= |body|
  {
    Ntohs(e, Load16(e, body, i + 2)) as nat
  }

  predicate IsMapped(e: Endian, kind: bv16) {
    kind == Ntohs(e, MAPPED_ADDR) || kind == Ntohs(e, XOR_MAPPED_ADDR)
  }

  /** Where the walk from `i` finds the attribute it decodes. */
  function Walk(e: Endian, body: seq<byte>, len: nat, i: nat): (r: Option<nat>)
    requires Buffer(body, len)
    ensures r.Some? ==> i <= r.value < len && IsMapped(e, KindAt(e, body, r.value))
    decreases len - i
  {
    if i >= len then None
    else if SizeAt(e, body, i) == 0 then None
    else if IsMapped(e, KindAt(e, body, i)) then Some(i)
    else Walk(e, body, len, i + 4 + SizeAt(e, body, i))
  }

  /** `*port = m->port ^ msg->magic`: the 32-bit result loses its upper half. */
  function XorPort(port: bv16, magic: bv32): bv16 {
    (((port as bv32) ^ magic) & 0xFFFF) as bv16
  }

  /** The address words and the port word that the attribute at `i` yields. */
  datatype Decoded = Decoded(addr: seq<bv32>, port: bv16)

  function Decode(e: Endian, key: Message, body: seq<byte>, i: nat): (d: Decoded)
    requires i + 24 <= |body|
    ensures |d.addr| == 4
  {
    var port, w0, w1 := Load16(e, body, i + 6), Load32(e, body, i + 8), Load32(e, body, i + 12);
    var w2, w3 := Load32(e, body, i + 16), Load32(e, body, i + 20);
    if KindAt(e, body, i) == Ntohs(e, MAPPED_ADDR) then
      Decoded([w0, w1, w2, w3], port)
    else
      Decoded([Xor32(w0, key.magic), Xor32(w1, key.tid0), Xor32(w2, key.tid1), Xor32(w3, key.tid2)],
              XorPort(port, key.magic))
  }

  /** Address families of section 15.1 of RFC 5389. */
  function FamilyOf(code: byte): Option<Family> {
    if code == 1 then Some(Inet) else if code == 2 then Some(Inet6) else None
  }

  /** What `stun_unpack` returns: the family, or nothing for its -1. */
  function Unpacked(e: Endian, body: seq<byte>, len: nat, pos: nat): Option<Family>
    requires Buffer(body, len)
  {
    var at := Walk(e, body, len, pos);
    if at.None? then None else FamilyOf(body[at.value + 5])
  }

  /** The out parameters `addr` and `port`. */
  class Mapping {
    var addr: seq<bv32>
    var port: bv16

    constructor ()
      ensures |addr| == 4
    {
      addr, port := [0, 0, 0, 0], 0;
    }
  }

  /** `stun_unpack`. Every index the loop holds fits an `int`; every byte it reads lies in the buffer. */
  method StunUnpack(e: Endian, msg: Message, body: seq<byte>, len: nat, pos: nat, out: Mapping)
    returns (family: Option<Family>)
    requires Buffer(body, len) && pos <= HEADER
    modifies out
    ensures family == Unpacked(e, body, len, pos)
    ensures match Walk(e, body, len, pos)
            case Some(at) => Decoded(out.addr, out.port) == Decode(e, msg, body, at)
            case None => out.addr == old(out.addr) && out.port == old(out.port)
  {
    hide Ntohs, Load16, Load32, Xor32, XorPort, SizeAt, KindAt;
    var code: byte := 0;
    var i := pos;
    while i < len
      invariant pos <= i <= len + 0x1_0003 + HEADER
      invariant Walk(e, body, len, i) == Walk(e, body, len, pos)
      invariant out.addr == old(out.addr) && out.port == old(out.port) && code == 0
      decreases len - i
    {
      var size := SizeAt(e, body, i);
      if size <= 0 {
        return None;
      }
      if KindAt(e, body, i) == Ntohs(e, MAPPED_ADDR) {
        out.port := Load16(e, body, i + 6);
        out.addr := [Load32(e, body, i + 8), Load32(e, body, i + 12), Load32(e, body, i + 16), Load32(e, body, i + 20)];
        code := body[i + 5];
        assert Decoded(out.addr, out.port) == Decode(e, msg, body, i);
        break;
      } else if KindAt(e, body, i) == Ntohs(e, XOR_MAPPED_ADDR) {
        out.port := XorPort(Load16(e, body, i + 6), msg.magic);
        out.addr := [
          Xor32(Load32(e, body, i + 8), msg.magic),
          Xor32(Load32(e, body, i + 12), msg.tid0),
          Xor32(Load32(e, body, i + 16), msg.tid1),
          Xor32(Load32(e, body, i + 20), msg.tid2)
        ];
        code := body[i + 5];
        assert Decoded(out.addr, out.port) == Decode(e, msg, body, i);
        break;
      }
      SizeBound(e, body, i);
      i := i + 4 + size;
    }
    hide Decode;
    if code == 1 {
      family := Some(Inet);
    } else if code == 2 {
      family := Some(Inet6);
    } else {
      family := None;
    }
  }

  lemma SizeBound(e: Endian, body: seq<byte>, i: nat)
    requires i + 4 <= |body|
    ensures SizeAt(e, body, i) < 0x1_0000
  {
    SizeBytes(e, body, i);
  }

  lemma SizeBytes(e: Endian, body: seq<byte>, i: nat)
    requires i + 4 <= |body|
    ensures SizeAt(e, body, i) == 256 * (body[i + 2] as nat) + (body[i + 3] as nat)
  {
    hide Join16, Ntohs, Load16;
    NtohsIsNet(e, body, i + 2);
    NetValue(body[i + 2], body[i + 3]);
  }

  // ----- the walk, on the bytes alone -----

  /** The length and the type of the attribute at `i`, as they lie on the wire. */
  function WireSize(body: seq<byte>, i: nat): nat
    requires i + 4 <= |body|
  {
    256 * (body[i + 2] as nat) + (body[i + 3] as nat)
  }

  predicate WireMapped(body: seq<byte>, i: nat)
    requires i + 4 <= |body|
  {
    body[i] == 0 && (body[i + 1] == 0x01 || body[i + 1] == 0x20)
  }

  /** A chain of attributes from `i` to `p`, each but the last of a nonzero length, unmapped, and followed at once. */
  ghost predicate Chain(body: seq<byte>, len: nat, path: seq<nat>, i: nat, p: nat)
    requires Buffer(body, len)
  {
    && |path| > 0 && path[0] == i && path[|path| - 1] == p
    && (forall k :: 0 <= k < |path| ==> path[k] < len)
    && forall k :: 0 <= k < |path| - 1 ==>
         && WireSize(body, path[k]) > 0 && !WireMapped(body, path[k])
         && path[k + 1] == path[k] + 4 + WireSize(body, path[k])
  }

  lemma WireFields(e: Endian, body: seq<byte>, i: nat)
    requires i + 4 <= |body|
    ensures SizeAt(e, body, i) == WireSize(body, i) && (IsMapped(e, KindAt(e, body, i)) <==> WireMapped(body, i))
  {
    SizeBytes(e, body, i);
    hide Ntohs, Load16;
    NtohsIsNet(e, body, i);
    NtohsTwice(e, KindAt(e, body, i));
    NtohsTwice(e, MAPPED_ADDR);
    NtohsTwice(e, XOR_MAPPED_ADDR);
  }

  lemma Shortened(body: seq<byte>, len: nat, path: seq<nat>, i: nat, p: nat)
    requires Buffer(body, len) && Chain(body, len, path, i, p) && |path| > 1
    ensures Chain(body, len, path[1..], path[1], p)
  {}

  lemma Lengthened(body: seq<byte>, len: nat, path: seq<nat>, i: nat, j: nat, p: nat)
    requires Buffer(body, len) && Chain(body, len, path, j, p) && i < len
    requires WireSize(body, i) > 0 && !WireMapped(body, i) && j == i + 4 + WireSize(body, i)
    ensures Chain(body, len, [i] + path, i, p)
  {
    forall k | 0 <= k < |path| ensures ([i] + path)[k + 1] == path[k] {}
  }

  /**
   * On either host the walk finds exactly what the wire shows: a mapped address of nonzero length to which a chain
   * of other attributes leads. In every other case it finds nothing.
   */
  lemma {:induction false} WalkIff(e: Endian, body: seq<byte>, len: nat, i: nat, p: nat)
    requires Buffer(body, len)
    ensures Walk(e, body, len, i) == Some(p) <==>
            p < len && WireSize(body, p) > 0 && WireMapped(body, p) && exists path :: Chain(body, len, path, i, p)
    decreases len - i
  {
    WalkStep(e, body, len, i);
    ChainEnds(body, len, i, p);
    hide *;
    if i < len && WireSize(body, i) > 0 && !WireMapped(body, i) {
      var next := i + 4 + WireSize(body, i);
      WalkIff(e, body, len, next, p);
      ChainFrom(body, len, i, next, p);
    }
  }

  lemma WalkStep(e: Endian, body: seq<byte>, len: nat, i: nat)
    requires Buffer(body, len)
    ensures Walk(e, body, len, i)
         == if i >= len || WireSize(body, i) == 0 then None
            else if WireMapped(body, i) then Some(i) else Walk(e, body, len, i + 4 + WireSize(body, i))
  {
    if i < len {
      WireFields(e, body, i);
    }
    hide SizeAt, KindAt, IsMapped, WireSize, WireMapped;
  }

  lemma ChainEnds(body: seq<byte>, len: nat, i: nat, p: nat)
    requires Buffer(body, len)
    ensures i < len ==> Chain(body, len, [i], i, i)
    ensures i >= len || (p != i && !(WireSize(body, i) > 0 && !WireMapped(body, i))) ==>
              forall path :: !Chain(body, len, path, i, p)
  {
    hide WireSize, WireMapped;
    assert forall path :: Chain(body, len, path, i, p) && p != i ==> |path| > 1;
  }

  lemma ChainFrom(body: seq<byte>, len: nat, i: nat, next: nat, p: nat)
    requires Buffer(body, len) && i < len && WireSize(body, i) > 0 && !WireMapped(body, i)
    requires next == i + 4 + WireSize(body, i)
    ensures p < len && WireMapped(body, p) ==>
              ((exists path :: Chain(body, len, path, i, p)) <==> exists path :: Chain(body, len, path, next, p))
  {
    if p < len && WireMapped(body, p) {
      forall path | Chain(body, len, path, i, p) ensures Chain(body, len, path[1..], next, p) {
        Shortened(body, len, path, i, p);
      }
      forall path | Chain(body, len, path, next, p) ensures Chain(body, len, [i] + path, i, p) {
        Lengthened(body, len, path, i, next, p);
      }
    }
  }

  /** The walk visits at most one position in every 5 bytes. */
  function Visits(e: Endian, body: seq<byte>, len: nat, i: nat): (n: nat)
    requires Buffer(body, len)
    ensures i <= len ==> 5 * n <= len - i + 4
    decreases len - i
  {
    if i >= len then 0
    else if SizeAt(e, body, i) == 0 || IsMapped(e, KindAt(e, body, i)) then 1
    else 1 + Visits(e, body, len, i + 4 + SizeAt(e, body, i))
  }

  /** Two buffers agree on a stretch that covers a 16-bit or a 32-bit word. */
  lemma SameWords(e: Endian, a: seq<byte>, b: seq<byte>, i: nat, k: nat)
    requires i + 24 <= |a| && i + 24 <= |b| && a[i..i + 24] == b[i..i + 24]
    ensures k + 2 <= 24 ==> Load16(e, a, i + k) == Load16(e, b, i + k)
    ensures k + 4 <= 24 ==> Load32(e, a, i + k) == Load32(e, b, i + k)
    ensures k < 24 ==> a[i + k] == b[i + k]
  {
    hide Join16, Join32;
    var x, y := a[i..i + 24], b[i..i + 24];
    assert k < 24 ==> a[i + k] == x[k] && b[i + k] == y[k];
    assert k < 23 ==> a[i + k + 1] == x[k + 1] && b[i + k + 1] == y[k + 1];
    assert k < 22 ==> a[i + k + 2] == x[k + 2] && b[i + k + 2] == y[k + 2];
    assert k < 21 ==> a[i + k + 3] == x[k + 3] && b[i + k + 3] == y[k + 3];
  }

  /** Two buffers that agree from `i` on for the 24 bytes an attribute header and address take. */
  lemma SameHere(e: Endian, key: Message, a: seq<byte>, b: seq<byte>, i: nat)
    requires i + 24 <= |a| && i + 24 <= |b| && a[i..i + 24] == b[i..i + 24]
    ensures SizeAt(e, a, i) == SizeAt(e, b, i) && KindAt(e, a, i) == KindAt(e, b, i)
    ensures a[i + 5] == b[i + 5] && Decode(e, key, a, i) == Decode(e, key, b, i)
  {
    hide Ntohs, XorPort, Xor32, Load16, Load32;
    SameWords(e, a, b, i, 0);
    SameWords(e, a, b, i, 2);
    SameWords(e, a, b, i, 5);
    SameWords(e, a, b, i, 6);
    SameWords(e, a, b, i, 8);
    SameWords(e, a, b, i, 12);
    SameWords(e, a, b, i, 16);
    SameWords(e, a, b, i, 20);
  }

  /**
   * No attribute length is checked against `len`, yet nothing beyond `len + 22` is ever read: two buffers
   * that agree up to there, well inside `BUFSIZE + 32`, are decoded alike.
   */
  lemma {:induction false} ReadsStayInside(e: Endian, key: Message, a: seq<byte>, b: seq<byte>, len: nat, i: nat)
    requires Buffer(a, len) && Buffer(b, len) && len + 23 <= |a|
    requires a[..len + 23] == b[..len + 23]
    ensures Walk(e, a, len, i) == Walk(e, b, len, i) && Unpacked(e, a, len, i) == Unpacked(e, b, len, i)
    ensures var at := Walk(e, a, len, i);
            at.Some? ==> Decode(e, key, a, at.value) == Decode(e, key, b, at.value)
    decreases len - i
  {
    hide KindAt, SizeAt, Decode, IsMapped;
    if i < len {
      assert a[i..i + 24] == a[..len + 23][i..i + 24] == b[..len + 23][i..i + 24] == b[i..i + 24];
      SameHere(e, key, a, b, i);
      if SizeAt(e, a, i) > 0 && !IsMapped(e, KindAt(e, a, i)) {
        ReadsStayInside(e, key, a, b, len, i + 4 + SizeAt(e, a, i));
      }
    }
  }
}
