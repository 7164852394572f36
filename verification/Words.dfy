/** C's 16- and 32-bit words over a byte buffer, on a little-endian or a big-endian host. */
module Words {
  import opened Keys

  datatype Endian = Little | Big

  /** Exclusive or, named so that a proof can treat it as a black box. */
  function Xor8(a: byte, b: byte): byte {
    a ^ b
  }

  function Xor16(a: bv16, b: bv16): bv16 {
    a ^ b
  }

  function Xor32(a: bv32, b: bv32): bv32 {
    a ^ b
  }

  function Join16(hi: byte, lo: byte): bv16 {
    ((hi as bv16) << 8) | (lo as bv16)
  }

  function Join32(d3: byte, d2: byte, d1: byte, d0: byte): bv32 {
    ((d3 as bv32) << 24) | ((d2 as bv32) << 16) | ((d1 as bv32) << 8) | (d0 as bv32)
  }

  function Digit(w: bv32, k: nat): byte
    requires k < 4
  {
    if k == 0 then (w & 0xFF) as byte
    else if k == 1 then ((w >> 8) & 0xFF) as byte
    else if k == 2 then ((w >> 16) & 0xFF) as byte
    else ((w >> 24) & 0xFF) as byte
  }

  /** Reads an `unsigned short` at `m + at`. */
  function Load16(e: Endian, m: seq<byte>, at: nat): bv16
    requires at + 2 <= |m|
  {
    if e.Little? then Join16(m[at + 1], m[at]) else Join16(m[at], m[at + 1])
  }

  /** Reads an `unsigned int` at `m + at`. */
  function Load32(e: Endian, m: seq<byte>, at: nat): bv32
    requires at + 4 <= |m|
  {
    if e.Little? then Join32(m[at + 3], m[at + 2], m[at + 1], m[at])
    else Join32(m[at], m[at + 1], m[at + 2], m[at + 3])
  }

  /** The two bytes of an `unsigned short` in memory. */
  function Store16(e: Endian, w: bv16): (m: seq<byte>)
    ensures |m| == 2
  {
    var lo, hi := (w & 0xFF) as byte, (w >> 8) as byte;
    if e.Little? then [lo, hi] else [hi, lo]
  }

  /** The four bytes of an `unsigned int` in memory. */
  function Store32(e: Endian, w: bv32): (m: seq<byte>)
    ensures |m| == 4
  {
    if e.Little? then [Digit(w, 0), Digit(w, 1), Digit(w, 2), Digit(w, 3)]
    else [Digit(w, 3), Digit(w, 2), Digit(w, 1), Digit(w, 0)]
  }

  /** `ntohs` and `htons`: the same swap. */
  function Ntohs(e: Endian, w: bv16): bv16 {
    if e.Little? then (w << 8) | (w >> 8) else w
  }

  /** `ntohl` and `htonl`. */
  function Ntohl(e: Endian, w: bv32): bv32 {
    if e.Little? then Join32(Digit(w, 0), Digit(w, 1), Digit(w, 2), Digit(w, 3)) else w
  }

  /** A 16-bit number on the wire, most significant byte first. */
  function Net16(w: bv16): (m: seq<byte>)
    ensures |m| == 2
  {
    [(w >> 8) as byte, (w & 0xFF) as byte]
  }

  lemma JoinDigits(d3: byte, d2: byte, d1: byte, d0: byte)
    ensures Digit(Join32(d3, d2, d1, d0), 0) == d0
    ensures Digit(Join32(d3, d2, d1, d0), 1) == d1
    ensures Digit(Join32(d3, d2, d1, d0), 2) == d2
    ensures Digit(Join32(d3, d2, d1, d0), 3) == d3
  {}

  lemma XorDigit(a: bv32, b: bv32, k: nat)
    requires k < 4
    ensures Digit(Xor32(a, b), k) == Xor8(Digit(a, k), Digit(b, k))
  {
    hide Digit, Xor32, Xor8;
    if k == 0 {
      XorDigit0(a, b);
    } else if k == 1 {
      XorDigit1(a, b);
    } else if k == 2 {
      XorDigit2(a, b);
    } else {
      XorDigit3(a, b);
    }
  }

  lemma XorDigit0(a: bv32, b: bv32)
    ensures Digit(Xor32(a, b), 0) == Xor8(Digit(a, 0), Digit(b, 0))
  {}

  lemma XorDigit1(a: bv32, b: bv32)
    ensures Digit(Xor32(a, b), 1) == Xor8(Digit(a, 1), Digit(b, 1))
  {}

  lemma XorDigit2(a: bv32, b: bv32)
    ensures Digit(Xor32(a, b), 2) == Xor8(Digit(a, 2), Digit(b, 2))
  {}

  lemma XorDigit3(a: bv32, b: bv32)
    ensures Digit(Xor32(a, b), 3) == Xor8(Digit(a, 3), Digit(b, 3))
  {}

  lemma StoreLoad32(e: Endian, m: seq<byte>, at: nat)
    requires at + 4 <= |m|
    ensures Store32(e, Load32(e, m, at)) == m[at..at + 4]
  {
    if e.Little? {
      JoinDigits(m[at + 3], m[at + 2], m[at + 1], m[at]);
    } else {
      JoinDigits(m[at], m[at + 1], m[at + 2], m[at + 3]);
    }
  }

  lemma StoreDigit(e: Endian, w: bv32, k: nat)
    requires k < 4
    ensures Store32(e, w)[k] == Digit(w, if e.Little? then k else 3 - k)
  {
    hide Digit;
  }

  /** A word-wise exclusive or is the byte-wise one, whatever the host. */
  lemma StoreXor(e: Endian, a: bv32, b: bv32, k: nat)
    requires k < 4
    ensures Store32(e, Xor32(a, b))[k] == Xor8(Store32(e, a)[k], Store32(e, b)[k])
  {
    hide Digit, Store32, Xor32, Xor8;
    StoreDigit(e, a, k);
    StoreDigit(e, b, k);
    StoreDigit(e, Xor32(a, b), k);
    XorDigit(a, b, if e.Little? then k else 3 - k);
  }

  lemma JoinHalves(w: bv16)
    ensures Join16((w >> 8) as byte, (w & 0xFF) as byte) == w
  {}

  lemma SwapJoin(hi: byte, lo: byte)
    ensures Ntohs(Little, Join16(lo, hi)) == Join16(hi, lo)
  {}

  lemma SplitJoin(hi: byte, lo: byte)
    ensures (Join16(hi, lo) >> 8) as byte == hi && (Join16(hi, lo) & 0xFF) as byte == lo
  {}

  lemma NtohsIsNet(e: Endian, m: seq<byte>, at: nat)
    requires at + 2 <= |m|
    ensures Ntohs(e, Load16(e, m, at)) == Join16(m[at], m[at + 1])
  {
    SwapJoin(m[at], m[at + 1]);
  }

  lemma NetRead(e: Endian, w: bv16, m: seq<byte>, at: nat)
    requires at + 2 <= |m| && m[at..at + 2] == Net16(w)
    ensures Ntohs(e, Load16(e, m, at)) == w
  {
    hide Ntohs, Load16;
    assert m[at] == m[at..at + 2][0] && m[at + 1] == m[at..at + 2][1];
    NtohsIsNet(e, m, at);
    JoinHalves(w);
  }

  lemma NtohsTwice(e: Endian, w: bv16)
    ensures Ntohs(e, Ntohs(e, w)) == w
  {}

  lemma NetValue(hi: byte, lo: byte)
    ensures Join16(hi, lo) as nat == 256 * (hi as nat) + (lo as nat)
  {
    ValueOf(hi, lo, Join16(hi, lo));
  }

  lemma ValueOf(hi: byte, lo: byte, w: bv16)
    requires w == ((hi as bv16) << 8) | (lo as bv16)
    ensures w as nat == 256 * (hi as nat) + (lo as nat)
  {}

  lemma StoreNtohs(e: Endian, w: bv16)
    ensures Store16(e, Ntohs(e, w)) == Net16(w)
  {
    if e.Little? {
      var hi, lo := (w >> 8) as byte, (w & 0xFF) as byte;
      JoinHalves(w);
      SwapJoin(lo, hi);
      SplitJoin(lo, hi);
      hide Ntohs, Join16;
      assert Ntohs(e, w) == Join16(lo, hi);
    }
  }

  lemma StoreNtohl(e: Endian, w: bv32)
    ensures Store32(e, Ntohl(e, w)) == [Digit(w, 3), Digit(w, 2), Digit(w, 1), Digit(w, 0)]
  {
    JoinDigits(Digit(w, 0), Digit(w, 1), Digit(w, 2), Digit(w, 3));
  }

  lemma JoinOfDigits(w: bv32)
    ensures Join32(Digit(w, 3), Digit(w, 2), Digit(w, 1), Digit(w, 0)) == w
  {}
}
