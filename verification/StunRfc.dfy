/** Attributes as RFC 5389 writes them (sections 15, 15.1, 15.2), and what `stun_unpack` makes of them. */
module StunRfc {
  import opened Keys
  import opened Options
  import opened Words
  import opened StunCodec

  /** An attribute: its type, its length field and the value the length counts. */
  datatype Attr = Attr(kind: bv16, size: bv16, value: seq<byte>) {
    ghost predicate Valid() {
      |value| == size as nat
    }
  }

  function Zeros(n: nat): (z: seq<byte>)
    ensures |z| == n
  {
    seq(n, _ => 0)
  }

  /** Section 15: the value is padded to a multiple of 4 bytes; the length does not count the padding. */
  function Padding(n: nat): nat {
    (4 - n % 4) % 4
  }

  function Encode(a: Attr): seq<byte> {
    Net16(a.kind) + Net16(a.size) + a.value + Zeros(Padding(|a.value|))
  }

  function EncodeAll(xs: seq<Attr>): seq<byte> {
    if xs == [] then [] else Encode(xs[0]) + EncodeAll(xs[1..])
  }

  /** An attribute the walk has to step over. */
  ghost predicate Unrelated(a: Attr) {
    a.Valid() && a.kind != MAPPED_ADDR && a.kind != XOR_MAPPED_ADDR
  }

  ghost predicate Holds(body: seq<byte>, at: nat, b: seq<byte>) {
    at + |b| <= |body| && body[at..at + |b|] == b
  }

  lemma HoldsParts(body: seq<byte>, at: nat, a: seq<byte>, b: seq<byte>)
    ensures Holds(body, at, a + b) <==> Holds(body, at, a) && Holds(body, at + |a|, b)
  {
    if Holds(body, at, a + b) {
      assert body[at..at + |a|] == body[at..at + |a + b|][..|a|];
      assert body[at + |a|..at + |a| + |b|] == body[at..at + |a + b|][|a|..];
    }
  }

  /** The type and length fields as the walk reads them. */
  lemma Fields(e: Endian, body: seq<byte>, at: nat, a: Attr)
    requires Holds(body, at, Encode(a)) && a.Valid()
    ensures SizeAt(e, body, at) == |a.value|
    ensures KindAt(e, body, at) == Ntohs(e, a.kind)
    ensures IsMapped(e, KindAt(e, body, at)) <==> a.kind == MAPPED_ADDR || a.kind == XOR_MAPPED_ADDR
  {
    hide Ntohs, Load16, Net16;
    HoldsParts(body, at, Net16(a.kind), Net16(a.size) + (a.value + Zeros(Padding(|a.value|))));
    HoldsParts(body, at + 2, Net16(a.size), a.value + Zeros(Padding(|a.value|)));
    assert Encode(a) == Net16(a.kind) + (Net16(a.size) + (a.value + Zeros(Padding(|a.value|))));
    NetRead(e, a.kind, body, at);
    NetRead(e, a.size, body, at + 2);
    NtohsTwice(e, KindAt(e, body, at));
    NtohsTwice(e, MAPPED_ADDR);
    NtohsTwice(e, XOR_MAPPED_ADDR);
  }

  /**
   * One step of the walk reaches the next attribute if and only if the skipped length is a nonzero
   * multiple of 4: the source adds the length but not the padding of section 15.
   */
  lemma StepReachesNext(e: Endian, body: seq<byte>, len: nat, at: nat, a: Attr)
    requires Buffer(body, len) && at < len && Unrelated(a) && Holds(body, at, Encode(a))
    ensures |a.value| > 0 && |a.value| % 4 == 0 ==> Walk(e, body, len, at) == Walk(e, body, len, at + |Encode(a)|)
    ensures |a.value| == 0 ==> Walk(e, body, len, at) == None
    ensures |a.value| % 4 != 0 ==> Walk(e, body, len, at) == Walk(e, body, len, at + |Encode(a)| - Padding(|a.value|))
  {
    hide *;
    Skippable(e, body, at, a);
    EncodedLength(a);
    NoPadding(|a.value|);
    WalkOver(e, body, len, at, |a.value|);
  }

  lemma Skippable(e: Endian, body: seq<byte>, at: nat, a: Attr)
    requires Unrelated(a) && Holds(body, at, Encode(a))
    ensures at + 4 <= |body| && SizeAt(e, body, at) == |a.value| && !IsMapped(e, KindAt(e, body, at))
  {
    hide SizeAt, KindAt, IsMapped;
    Fields(e, body, at, a);
  }

  lemma NoPadding(n: nat)
    ensures n % 4 == 0 ==> Padding(n) == 0
  {}

  lemma WalkOver(e: Endian, body: seq<byte>, len: nat, at: nat, size: nat)
    requires Buffer(body, len) && at < len && SizeAt(e, body, at) == size && !IsMapped(e, KindAt(e, body, at))
    ensures Walk(e, body, len, at) == if size == 0 then None else Walk(e, body, len, at + 4 + size)
  {
    hide SizeAt, KindAt, IsMapped;
  }

  /** Skipping any list of attributes of nonzero lengths divisible by 4. */
  lemma {:induction false} WalkSkips(e: Endian, body: seq<byte>, len: nat, at: nat, xs: seq<Attr>)
    requires Buffer(body, len) && at + |EncodeAll(xs)| < len && Holds(body, at, EncodeAll(xs))
    requires forall x <- xs :: Unrelated(x) && |x.value| > 0 && |x.value| % 4 == 0
    ensures Walk(e, body, len, at) == Walk(e, body, len, at + |EncodeAll(xs)|)
    decreases |xs|
  {
    hide Walk, Encode, Ntohs, Load16;
    if xs != [] {
      HoldsParts(body, at, Encode(xs[0]), EncodeAll(xs[1..]));
      StepReachesNext(e, body, len, at, xs[0]);
      WalkSkips(e, body, len, at + |Encode(xs[0])|, xs[1..]);
    }
  }

  // ----- the two mapped-address attributes -----

  function AddrLen(f: Family): nat {
    if f.Inet? then 4 else 16
  }

  function FamilyCode(f: Family): byte {
    if f.Inet? then 1 else 2
  }

  function XorBytes(a: seq<byte>, k: seq<byte>): (b: seq<byte>)
    requires |a| <= |k|
    ensures |b| == |a|
  {
    seq(|a|, i requires 0 <= i < |a| => Xor8(a[i], k[i]))
  }

  /** Section 15.1: MAPPED-ADDRESS. */
  function Mapped(f: Family, port: bv16, addr: seq<byte>): Attr
    requires |addr| == AddrLen(f)
  {
    Attr(MAPPED_ADDR, if f.Inet? then 8 else 20, [0, FamilyCode(f)] + Net16(port) + addr)
  }

  /** Section 15.2: XOR-MAPPED-ADDRESS under the magic cookie and the transaction id. */
  function XorMapped(f: Family, port: bv16, addr: seq<byte>, tid: seq<byte>): Attr
    requires |addr| == AddrLen(f) && |tid| == 12
  {
    Attr(XOR_MAPPED_ADDR, if f.Inet? then 8 else 20,
         [0, FamilyCode(f)] + Net16(Xor16(port, 0x2112)) + XorBytes(addr, MAGIC_BYTES + tid))
  }

  lemma XorBytesAt(a: seq<byte>, k: seq<byte>, i: nat)
    requires i < |a| <= |k|
    ensures XorBytes(a, k)[i] == Xor8(a[i], k[i])
  {}

  /** The decoded address words as the bytes they are in memory. */
  function AddrBytes(e: Endian, w: seq<bv32>): (b: seq<byte>)
    requires |w| == 4
    ensures |b| == 16
  {
    Store32(e, w[0]) + Store32(e, w[1]) + Store32(e, w[2]) + Store32(e, w[3])
  }

  /** The word of a message that masks address word `j`. */
  function Mask(key: Message, j: nat): bv32
    requires j < 4
  {
    if j == 0 then key.magic else if j == 1 then key.tid0 else if j == 2 then key.tid1 else key.tid2
  }

  lemma AddrByte(e: Endian, w: seq<bv32>, j: nat, r: nat)
    requires |w| == 4 && j < 4 && r < 4
    ensures AddrBytes(e, w)[4 * j + r] == Store32(e, w[j])[r]
  {
    hide Store32;
  }

  lemma WireByte(e: Endian, key: Message, j: nat, r: nat)
    requires j < 4 && r < 4
    ensures Wire(e, key)[4 + 4 * j + r] == Store32(e, Mask(key, j))[r]
  {
    hide Store32, Store16;
  }

  lemma DecodeWord(e: Endian, key: Message, body: seq<byte>, at: nat, j: nat)
    requires at + 24 <= |body| && j < 4
    ensures Decode(e, key, body, at).addr[j]
         == var w := Load32(e, body, at + 8 + 4 * j);
            if KindAt(e, body, at) == Ntohs(e, MAPPED_ADDR) then w else Xor32(w, Mask(key, j))
  {
    hide Load32, Load16, Ntohs, Xor32, XorPort;
  }

  /** Decoding masks every address byte with the matching byte of the key's header, whatever the host. */
  lemma DecodeByte(e: Endian, key: Message, body: seq<byte>, at: nat, j: nat, r: nat)
    requires at + 24 <= |body| && j < 4 && r < 4
    ensures AddrBytes(e, Decode(e, key, body, at).addr)[4 * j + r]
         == var b := body[at + 8 + 4 * j + r];
            if KindAt(e, body, at) == Ntohs(e, MAPPED_ADDR) then b else Xor8(b, Wire(e, key)[4 + 4 * j + r])
  {
    hide *;
    var at', w, x := at + 8 + 4 * j, Load32(e, body, at + 8 + 4 * j), Mask(key, j);
    DecodeWord(e, key, body, at, j);
    AddrByte(e, Decode(e, key, body, at).addr, j, r);
    WireByte(e, key, j, r);
    StoreLoad32(e, body, at');
    assert Store32(e, w)[r] == body[at' + r];
    StoreXor(e, w, x, r);
  }

  // ----- round trips -----

  /** Kinds and lengths apart, what a mapped attribute at `at` shows to the decoder. */
  lemma TargetFields(e: Endian, body: seq<byte>, at: nat, kind: bv16, f: Family, port: bv16, addr: seq<byte>)
    requires |addr| == AddrLen(f)
    requires var a := Attr(kind, if f.Inet? then 8 else 20, [0, FamilyCode(f)] + Net16(port) + addr);
             Holds(body, at, Encode(a))
    ensures at + 8 + |addr| <= |body|
    ensures body[at + 5] == FamilyCode(f) && body[at + 8..at + 8 + |addr|] == addr
    ensures Ntohs(e, Load16(e, body, at + 6)) == port
    ensures KindAt(e, body, at) == Ntohs(e, kind) && SizeAt(e, body, at) == 4 + |addr|
  {
    hide Ntohs, Load16, Net16, SizeAt, KindAt;
    var a := Attr(kind, if f.Inet? then 8 else 20, [0, FamilyCode(f)] + Net16(port) + addr);
    Fields(e, body, at, a);
    var head := Net16(a.kind) + Net16(a.size) + [0, FamilyCode(f)];
    assert Encode(a) == head + (Net16(port) + (addr + Zeros(Padding(|a.value|))));
    HoldsParts(body, at, head, Net16(port) + (addr + Zeros(Padding(|a.value|))));
    HoldsParts(body, at + 6, Net16(port), addr + Zeros(Padding(|a.value|)));
    HoldsParts(body, at + 8, addr, Zeros(Padding(|a.value|)));
    assert body[at..at + 6][5] == head[5];
    NetRead(e, port, body, at + 6);
  }

  /** The walk stops at the first attribute of either kind, whatever follows it. */
  lemma {:induction false} WalkFinds(e: Endian, body: seq<byte>, len: nat, pos: nat, skipped: seq<Attr>, target: Attr)
    requires Buffer(body, len) && pos + |EncodeAll(skipped)| < len
    requires Holds(body, pos, EncodeAll(skipped) + Encode(target))
    requires forall x <- skipped :: Unrelated(x) && |x.value| > 0 && |x.value| % 4 == 0
    requires target.Valid() && |target.value| > 0
    requires target.kind == MAPPED_ADDR || target.kind == XOR_MAPPED_ADDR
    ensures Walk(e, body, len, pos) == Some(pos + |EncodeAll(skipped)|)
  {
    hide Encode, EncodeAll, Ntohs, Load16;
    HoldsParts(body, pos, EncodeAll(skipped), Encode(target));
    WalkSkips(e, body, len, pos, skipped);
    Fields(e, body, pos + |EncodeAll(skipped)|, target);
  }

  /** Round trip of MAPPED-ADDRESS: family, address bytes and port, on either host and under any key. */
  lemma {:induction false} MappedRoundTrip(e: Endian, key: Message, body: seq<byte>, len: nat, pos: nat,
                        skipped: seq<Attr>, f: Family, port: bv16, addr: seq<byte>)
    requires Buffer(body, len) && pos + |EncodeAll(skipped)| < len && |addr| == AddrLen(f)
    requires Holds(body, pos, EncodeAll(skipped) + Encode(Mapped(f, port, addr)))
    requires forall x <- skipped :: Unrelated(x) && |x.value| > 0 && |x.value| % 4 == 0
    ensures Unpacked(e, body, len, pos) == Some(f)
    ensures var d := Decode(e, key, body, pos + |EncodeAll(skipped)|);
            Walk(e, body, len, pos) == Some(pos + |EncodeAll(skipped)|)
            && Ntohs(e, d.port) == port && AddrBytes(e, d.addr)[..|addr|] == addr
  {
    hide Encode, EncodeAll, Ntohs, Load16, Load32, Walk, AddrBytes, SizeAt, Net16;
    var at := pos + |EncodeAll(skipped)|;
    WalkFinds(e, body, len, pos, skipped, Mapped(f, port, addr));
    HoldsParts(body, pos, EncodeAll(skipped), Encode(Mapped(f, port, addr)));
    TargetFields(e, body, at, MAPPED_ADDR, f, port, addr);
    forall k | 0 <= k < |addr| ensures AddrBytes(e, Decode(e, key, body, at).addr)[k] == addr[k] {
      DecodeByte(e, key, body, at, k / 4, k % 4);
      assert body[at + 8..at + 8 + |addr|][k] == body[at + 8 + k];
    }
  }

  /** What a big-endian host leaves on the port: 0x2112 ^ 0xA442. */
  const BIG_ENDIAN_ERROR: bv16 := 0x2112 ^ 0xA442

  function PortMask(e: Endian): bv16 {
    if e.Little? then 0x2112 else 0xA442
  }

  /** The mask `MAGIC` leaves on a port: 0x2112 on a little-endian host, 0xA442 on a big-endian one. */
  lemma MagicOnPort(e: Endian, magic: bv32, raw: bv16)
    requires Store32(e, magic) == MAGIC_BYTES
    ensures Ntohs(e, XorPort(raw, magic)) == Xor16(Ntohs(e, raw), PortMask(e))
  {
    JoinOfDigits(magic);
    if e.Little? {
      assert Digit(magic, 0) == 0x21 && Digit(magic, 1) == 0x12 && Digit(magic, 2) == 0xA4 && Digit(magic, 3) == 0x42;
      LittleMask(raw);
    } else {
      assert Digit(magic, 0) == 0x42 && Digit(magic, 1) == 0xA4 && Digit(magic, 2) == 0x12 && Digit(magic, 3) == 0x21;
      BigMask(raw);
    }
  }

  lemma LittleMask(raw: bv16)
    ensures Ntohs(Little, XorPort(raw, Join32(0x42, 0xA4, 0x12, 0x21))) == Xor16(Ntohs(Little, raw), 0x2112)
  {
    LowHalf(raw);
    SwapMask(raw);
    hide Ntohs, XorPort;
  }

  lemma LowHalf(raw: bv16)
    ensures XorPort(raw, Join32(0x42, 0xA4, 0x12, 0x21)) == raw ^ 0x1221
  {}

  lemma SwapMask(raw: bv16)
    ensures Ntohs(Little, raw ^ 0x1221) == Xor16(Ntohs(Little, raw), 0x2112)
  {}

  lemma BigMask(raw: bv16)
    ensures Ntohs(Big, XorPort(raw, Join32(0x21, 0x12, 0xA4, 0x42))) == Xor16(Ntohs(Big, raw), 0xA442)
  {}

  lemma XorTwice(a: byte, r: byte, q: byte)
    ensures Xor8(Xor8(a, r), q) == a <==> r == q
  {
    XorCancels(a, r, q, Xor8(Xor8(a, r), q));
  }

  lemma XorCancels(a: byte, r: byte, q: byte, x: byte)
    requires x == (a ^ r) ^ q
    ensures x == a <==> r == q
  {}

  /**
   * Round trip of XOR-MAPPED-ADDRESS. The encoder masked with transaction id `tid`; the decoder masks with `key`,
   * whose cookie is the magic one. The port is right on a little-endian host and off by 0x2112 ^ 0xA442 on a
   * big-endian one; an IPv4 address is always right, an IPv6 address exactly when the two ids are equal.
   */
  lemma {:induction false} XorMappedRoundTrip(e: Endian, key: Message, body: seq<byte>, len: nat, pos: nat,
                           skipped: seq<Attr>, f: Family, port: bv16, addr: seq<byte>, tid: seq<byte>)
    requires Buffer(body, len) && pos + |EncodeAll(skipped)| < len && |addr| == AddrLen(f) && |tid| == 12
    requires Holds(body, pos, EncodeAll(skipped) + Encode(XorMapped(f, port, addr, tid)))
    requires forall x <- skipped :: Unrelated(x) && |x.value| > 0 && |x.value| % 4 == 0
    requires Wire(e, key)[4..8] == MAGIC_BYTES
    ensures Unpacked(e, body, len, pos) == Some(f)
    ensures var d := Decode(e, key, body, pos + |EncodeAll(skipped)|);
            Walk(e, body, len, pos) == Some(pos + |EncodeAll(skipped)|)
            && Ntohs(e, d.port) == (if e.Little? then port else Xor16(port, BIG_ENDIAN_ERROR))
            && (AddrBytes(e, d.addr)[..|addr|] == addr <==> f.Inet? || Wire(e, key)[8..20] == tid)
  {
    hide Encode, EncodeAll, Ntohs, Load16, Load32, Walk, AddrBytes, SizeAt, Net16, Store32, Store16, XorPort, Wire;
    hide Decode, Xor16;
    var at := pos + |EncodeAll(skipped)|;
    var a := XorMapped(f, port, addr, tid);
    WalkFinds(e, body, len, pos, skipped, a);
    HoldsParts(body, pos, EncodeAll(skipped), Encode(a));
    TargetFields(e, body, at, XOR_MAPPED_ADDR, f, Xor16(port, 0x2112), XorBytes(addr, MAGIC_BYTES + tid));
    KindsDiffer(e);
    CookieAddress(e, key, body, at, addr, tid);
    CookiePort(e, key, body, at, port);
  }

  lemma KindsDiffer(e: Endian)
    ensures Ntohs(e, MAPPED_ADDR) != Ntohs(e, XOR_MAPPED_ADDR)
  {}

  /** The address bytes, masked once by the encoder and once by the decoder. */
  lemma CookieAddress(e: Endian, key: Message, body: seq<byte>, at: nat, addr: seq<byte>, tid: seq<byte>)
    requires at + 24 <= |body| && |tid| == 12 && |addr| in {4, 16} && Wire(e, key)[4..8] == MAGIC_BYTES
    requires KindAt(e, body, at) != Ntohs(e, MAPPED_ADDR)
    requires body[at + 8..at + 8 + |addr|] == XorBytes(addr, MAGIC_BYTES + tid)
    ensures AddrBytes(e, Decode(e, key, body, at).addr)[..|addr|] == addr <==>
            |addr| == 4 || Wire(e, key)[8..20] == tid
  {
    hide Wire, AddrBytes, Decode, Ntohs, KindAt, Store32, XorBytes, Xor8;
    var b, w, m := AddrBytes(e, Decode(e, key, body, at).addr), Wire(e, key), MAGIC_BYTES + tid;
    forall k | 0 <= k < |addr| ensures b[k] == addr[k] <==> m[k] == w[4 + k] {
      DecodeByte(e, key, body, at, k / 4, k % 4);
      assert body[at + 8..at + 8 + |addr|][k] == body[at + 8 + k];
      XorBytesAt(addr, m, k);
      XorTwice(addr[k], m[k], w[4 + k]);
    }
    assert forall k :: 0 <= k < 4 ==> m[k] == w[4..8][k] == w[4 + k];
    assert forall k :: 4 <= k < 16 ==> m[k] == tid[k - 4] && w[4 + k] == w[8..20][k - 4];
    if b[..|addr|] == addr && |addr| == 16 {
      forall k | 0 <= k < 12 ensures w[8..20][k] == tid[k] {
        assert b[..16][4 + k] == addr[4 + k];
        assert m[4 + k] == tid[k];
      }
    }
  }

  /** The port, masked once by the encoder and once by the decoder. */
  lemma CookiePort(e: Endian, key: Message, body: seq<byte>, at: nat, port: bv16)
    requires at + 24 <= |body| && Wire(e, key)[4..8] == MAGIC_BYTES
    requires KindAt(e, body, at) != Ntohs(e, MAPPED_ADDR)
    requires Ntohs(e, Load16(e, body, at + 6)) == Xor16(port, 0x2112)
    ensures Ntohs(e, Decode(e, key, body, at).port) == if e.Little? then port else Xor16(port, BIG_ENDIAN_ERROR)
  {
    hide *;
    DecodePort(e, key, body, at);
    WireMagic(e, key);
    MagicOnPort(e, key.magic, Load16(e, body, at + 6));
    MaskTwice(port);
  }

  lemma DecodePort(e: Endian, key: Message, body: seq<byte>, at: nat)
    requires at + 24 <= |body| && KindAt(e, body, at) != Ntohs(e, MAPPED_ADDR)
    ensures Decode(e, key, body, at).port == XorPort(Load16(e, body, at + 6), key.magic)
  {
    hide Load16, Load32, Ntohs, XorPort, Xor32;
  }

  lemma WireMagic(e: Endian, key: Message)
    ensures Wire(e, key)[4..8] == Store32(e, key.magic)
  {
    hide Store32, Store16;
  }

  lemma MaskTwice(port: bv16)
    ensures Xor16(Xor16(port, 0x2112), PortMask(Little)) == port
    ensures Xor16(Xor16(port, 0x2112), PortMask(Big)) == Xor16(port, BIG_ENDIAN_ERROR)
  {}

  /**
   * The family code decides: a mapped attribute, the first the walk reaches, is accepted if and only if its code is
   * 1 or 2, and its family is then IPv4 or IPv6.
   */
  lemma {:induction false} CodeDecides(e: Endian, body: seq<byte>, len: nat, pos: nat, skipped: seq<Attr>,
                        target: Attr)
    requires Buffer(body, len) && pos + |EncodeAll(skipped)| < len && target.Valid() && |target.value| >= 4
    requires target.kind == MAPPED_ADDR || target.kind == XOR_MAPPED_ADDR
    requires Holds(body, pos, EncodeAll(skipped) + Encode(target))
    requires forall x <- skipped :: Unrelated(x) && |x.value| > 0 && |x.value| % 4 == 0
    ensures Unpacked(e, body, len, pos) == Some(Inet) <==> target.value[1] == 1
    ensures Unpacked(e, body, len, pos) == Some(Inet6) <==> target.value[1] == 2
  {
    hide Encode, EncodeAll, Ntohs, Load16, Walk, Net16, Holds;
    WalkFinds(e, body, len, pos, skipped, target);
    HoldsParts(body, pos, EncodeAll(skipped), Encode(target));
    TargetBytes(body, pos + |EncodeAll(skipped)|, target);
  }

  /**
   * Any magic, the reply's own over TCP included, masks the port with its first two bytes on the wire on a
   * little-endian host and with its last two on a big-endian one.
   */
  lemma AnyMagicOnPort(e: Endian, port: bv16, magic: bv32, k: nat)
    requires k < 2
    ensures Store16(e, XorPort(port, magic))[k]
         == Xor8(Store16(e, port)[k], Store32(e, magic)[if e.Little? then k else k + 2])
  {
    HighByte(port, magic);
    LowByte(port, magic);
    hide XorPort, Xor8, Digit;
  }

  lemma HighByte(port: bv16, magic: bv32)
    ensures (XorPort(port, magic) >> 8) as byte == Xor8((port >> 8) as byte, Digit(magic, 1))
  {}

  lemma LowByte(port: bv16, magic: bv32)
    ensures (XorPort(port, magic) & 0xFF) as byte == Xor8((port & 0xFF) as byte, Digit(magic, 0))
  {}

  // ----- the exact condition on the last skipped attribute -----

  /**
   * A message of well-sized attributes, then one unrelated attribute of any length padded with zeros, then the
   * mapped address as its last attribute: the address is found if and only if that length is a nonzero multiple
   * of 4. In every other case the walk falls into the padding and `stun_unpack` fails.
   */
  lemma {:induction false} FoundIffAligned(e: Endian, body: seq<byte>, len: nat, pos: nat, skipped: seq<Attr>,
                        last: Attr, kind: bv16, f: Family, port: bv16, addr: seq<byte>)
    requires |addr| == AddrLen(f) && (kind == MAPPED_ADDR || kind == XOR_MAPPED_ADDR)
    requires forall x <- skipped :: Unrelated(x) && |x.value| > 0 && |x.value| % 4 == 0
    requires Buffer(body, len) && Unrelated(last)
    requires var target := Attr(kind, if f.Inet? then 8 else 20, [0, FamilyCode(f)] + Net16(port) + addr);
             var msg := EncodeAll(skipped) + (Encode(last) + Encode(target));
             Holds(body, pos, msg) && len == pos + |msg|
    ensures Unpacked(e, body, len, pos) == Some(f) <==> |last.value| > 0 && |last.value| % 4 == 0
    ensures Unpacked(e, body, len, pos) != Some(f) ==> Unpacked(e, body, len, pos) == None
  {
    hide Encode, EncodeAll, Ntohs, Load16, Walk, Net16, Padding;
    var target := Attr(kind, if f.Inet? then 8 else 20, [0, FamilyCode(f)] + Net16(port) + addr);
    var at := pos + |EncodeAll(skipped)|;
    HoldsParts(body, pos, EncodeAll(skipped), Encode(last) + Encode(target));
    HoldsParts(body, at, Encode(last), Encode(target));
    EncodedLength(last);
    EncodedLength(target);
    WalkSkips(e, body, len, pos, skipped);
    AlignedEnd(e, body, len, at, last, kind, f, port, addr);
  }

  lemma AlignedEnd(e: Endian, body: seq<byte>, len: nat, at: nat, last: Attr,
                   kind: bv16, f: Family, port: bv16, addr: seq<byte>)
    requires |addr| == AddrLen(f) && (kind == MAPPED_ADDR || kind == XOR_MAPPED_ADDR)
    requires Buffer(body, len) && Unrelated(last) && Holds(body, at, Encode(last))
    requires var target := Attr(kind, if f.Inet? then 8 else 20, [0, FamilyCode(f)] + Net16(port) + addr);
             Holds(body, at + |Encode(last)|, Encode(target)) && len == at + |Encode(last)| + |Encode(target)|
    ensures var r := Unpacked(e, body, len, at);
            r == if |last.value| > 0 && |last.value| % 4 == 0 then Some(f) else None
  {
    hide *;
    var target := Attr(kind, if f.Inet? then 8 else 20, [0, FamilyCode(f)] + Net16(port) + addr);
    var to := at + |Encode(last)|;
    UnpackedFollows(e, body, len, at, to);
    UnpackedFollows(e, body, len, at, to - Padding(|last.value|));
    EncodedLength(last);
    EncodedLength(target);
    StepReachesNext(e, body, len, at, last);
    if |last.value| % 4 != 0 {
      PaddingRange(|last.value|);
      PaddingBytes(body, at, last);
      TargetInPadding(e, body, len, to, Padding(|last.value|), target, f);
    } else if |last.value| > 0 {
      MappedHere(e, body, len, to, kind, f, port, addr);
    }
  }

  lemma {:induction false} UnpackedFollows(e: Endian, body: seq<byte>, len: nat, i: nat, j: int)
    requires Buffer(body, len)
    ensures Walk(e, body, len, i) == None ==> Unpacked(e, body, len, i) == None
    ensures j >= 0 && Walk(e, body, len, i) == Walk(e, body, len, j) ==>
              Unpacked(e, body, len, i) == Unpacked(e, body, len, j)
  {
    hide Walk;
  }

  lemma PaddingRange(n: nat)
    requires n % 4 != 0
    ensures 1 <= Padding(n) <= 3
  {}

  lemma MappedHere(e: Endian, body: seq<byte>, len: nat, to: nat, kind: bv16, f: Family, port: bv16, addr: seq<byte>)
    requires |addr| == AddrLen(f) && (kind == MAPPED_ADDR || kind == XOR_MAPPED_ADDR)
    requires Buffer(body, len) && to < len
    requires var target := Attr(kind, if f.Inet? then 8 else 20, [0, FamilyCode(f)] + Net16(port) + addr);
             Holds(body, to, Encode(target))
    ensures Unpacked(e, body, len, to) == Some(f)
  {
    hide Encode, Ntohs, Load16, Walk, Net16, SizeAt, KindAt, IsMapped, Holds;
    TargetFields(e, body, to, kind, f, port, addr);
    Fields(e, body, to, Attr(kind, if f.Inet? then 8 else 20, [0, FamilyCode(f)] + Net16(port) + addr));
    TargetHere(e, body, len, to);
  }

  /** The walk is `pad` bytes short of a mapped attribute that ends the message. */
  lemma TargetInPadding(e: Endian, body: seq<byte>, len: nat, to: nat, pad: nat, target: Attr, f: Family)
    requires Buffer(body, len) && 1 <= pad <= 3 <= to && Holds(body, to, Encode(target))
    requires forall k :: to - pad <= k < to ==> body[k] == 0
    requires target.kind == MAPPED_ADDR || target.kind == XOR_MAPPED_ADDR
    requires target.size == (if f.Inet? then 8 else 20) && |target.value| == 4 + AddrLen(f)
    requires target.value[0] == 0 && target.value[1] == FamilyCode(f) && len == to + |Encode(target)|
    ensures Walk(e, body, len, to - pad) == None
  {
    hide Walk, Net16;
    EncodedLength(target);
    TargetBytes(body, to, target);
    SmallNet();
    hide Encode;
    LostInPadding(e, body, len, to, pad, target.kind, f);
  }

  lemma SmallNet()
    ensures Net16(8) == [0, 8] && Net16(20) == [0, 20]
  {}

  lemma EncodedLength(a: Attr)
    ensures |Encode(a)| == 4 + |a.value| + Padding(|a.value|)
  {}

  lemma {:induction false} TargetHere(e: Endian, body: seq<byte>, len: nat, i: nat)
    requires Buffer(body, len) && i < len && SizeAt(e, body, i) > 0 && IsMapped(e, KindAt(e, body, i))
    ensures Walk(e, body, len, i) == Some(i)
  {}

  lemma PaddingBytes(body: seq<byte>, at: nat, a: Attr)
    requires Holds(body, at, Encode(a))
    ensures forall k :: at + |Encode(a)| - Padding(|a.value|) <= k < at + |Encode(a)| ==> body[k] == 0
  {
    var b := Encode(a);
    assert forall k {:trigger b[k]} :: 0 <= k < |b| ==> b[k] == body[at + k];
    forall k | at + |b| - Padding(|a.value|) <= k < at + |b| ensures body[k] == 0 {
      assert b[k - at] == 0;
    }
  }

  lemma TargetBytes(body: seq<byte>, to: nat, a: Attr)
    requires Holds(body, to, Encode(a)) && |a.value| >= 4
    ensures [body[to], body[to + 1]] == Net16(a.kind) && [body[to + 2], body[to + 3]] == Net16(a.size)
    ensures body[to + 4] == a.value[0] && body[to + 5] == a.value[1]
  {
    var b := Encode(a);
    assert forall k {:trigger b[k]} :: 0 <= k < |b| ==> b[k] == body[to + k];
    assert b[0] == Net16(a.kind)[0] && b[2] == Net16(a.size)[0] && b[4] == a.value[0] && b[5] == a.value[1];
    assert b[1] == Net16(a.kind)[1] && b[3] == Net16(a.size)[1];
  }

  /** Walking into `pad` zero bytes before a mapped attribute at the end of the message finds nothing. */
  lemma LostInPadding(e: Endian, body: seq<byte>, len: nat, to: nat, pad: nat, kind: bv16, f: Family)
    requires Buffer(body, len) && 1 <= pad <= 3 <= to && len == to + 8 + AddrLen(f)
    requires forall k :: to - pad <= k < to ==> body[k] == 0
    requires kind == MAPPED_ADDR || kind == XOR_MAPPED_ADDR
    requires [body[to], body[to + 1]] == Net16(kind) && body[to + 2] == 0 && body[to + 4] == 0
    requires body[to + 3] == (if f.Inet? then 8 else 20) && body[to + 5] == FamilyCode(f)
    ensures Walk(e, body, len, to - pad) == None
  {
    var i := to - pad;
    NotMapped(e, body, i);
    SizeBytes(e, body, i);
    assert body[to] == 0 && (body[to + 1] == 1 || body[to + 1] == 0x20);
    if pad == 2 && kind == MAPPED_ADDR {
      NotMapped(e, body, to + 3);
      SizeBytes(e, body, to + 3);
    }
  }

  /** A type field that is neither 0x0001 nor 0x0020. */
  lemma NotMapped(e: Endian, body: seq<byte>, i: nat)
    requires i + 4 <= |body|
    ensures IsMapped(e, KindAt(e, body, i)) <==> body[i] == 0 && (body[i + 1] == 1 || body[i + 1] == 0x20)
  {
    NtohsIsNet(e, body, i);
    NtohsTwice(e, KindAt(e, body, i));
    NtohsTwice(e, MAPPED_ADDR);
    NtohsTwice(e, XOR_MAPPED_ADDR);
    JoinIs(body[i], body[i + 1]);
  }

  lemma JoinIs(hi: byte, lo: byte)
    ensures Join16(hi, lo) == 1 <==> hi == 0 && lo == 1
    ensures Join16(hi, lo) == 0x20 <==> hi == 0 && lo == 0x20
  {}
}
