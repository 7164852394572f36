/** What `hev_exec_run` hands to the script: the ports in decimal and the IP4P address. */
module ExecRun {
  import opened Keys
  import opened Options
  import opened Words
  import opened StunCodec
  import opened StunRfc
  import opened Text

  /** The IP4P text of two port bytes and four address bytes. */
  function Ip4p(p: seq<byte>, q: seq<byte>): (s: string)
    requires |p| == 2 && |q| == 4
    ensures |s| == 20
  {
    "2001::" + Hex2(p[0]) + Hex2(p[1]) + ":" + Hex2(q[0]) + Hex2(q[1]) + ":" + Hex2(q[2]) + Hex2(q[3])
  }

  /** Bytes as numbers. */
  function Values(b: seq<byte>): (v: seq<nat>)
    ensures |v| == |b|
  {
    seq(|b|, i requires 0 <= i < |b| => ByteValue(b[i]))
  }

  lemma ValuesInjective(a: seq<byte>, b: seq<byte>)
    ensures Values(a) == Values(b) <==> a == b
  {
    hide ByteValue;
    if Values(a) == Values(b) {
      assert |a| == |Values(a)| == |b|;
      forall i | 0 <= i < |a| ensures a[i] == b[i] {
        assert Values(a)[i] == Values(b)[i];
        ByteValueInjective(a[i], b[i]);
      }
    }
  }

  /**
   * Reads the bytes of `2001::{port}:{ipv4-hi16}:{ipv4-lo16}` back as numbers, or nothing if the text has
   * another form.
   */
  function ParseIp4p(s: string): (r: Option<(seq<nat>, seq<nat>)>)
    ensures r.Some? ==> |r.value.0| == 2 && |r.value.1| == 4
  {
    if |s| == 20 && s[..6] == "2001::" && s[10] == ':' && s[15] == ':'
       && IsHex2(s[6..8]) && IsHex2(s[8..10]) && IsHex2(s[11..13]) && IsHex2(s[13..15])
       && IsHex2(s[16..18]) && IsHex2(s[18..20])
    then
      Some(([ParseHex2(s[6..8]), ParseHex2(s[8..10])],
            [ParseHex2(s[11..13]), ParseHex2(s[13..15]), ParseHex2(s[16..18]), ParseHex2(s[18..20])]))
    else None
  }

  lemma Ip4pPieces(s: string, p: seq<byte>, q: seq<byte>)
    requires |p| == 2 && |q| == 4 && |s| == 20
    ensures s == Ip4p(p, q) <==>
            && s[..6] == "2001::" && s[6..8] == Hex2(p[0]) && s[8..10] == Hex2(p[1]) && s[10] == ':'
            && s[11..13] == Hex2(q[0]) && s[13..15] == Hex2(q[1]) && s[15] == ':'
            && s[16..18] == Hex2(q[2]) && s[18..20] == Hex2(q[3])
  {
    hide Hex2;
    assert s == s[..6] + s[6..8] + s[8..10] + [s[10]] + s[11..13] + s[13..15] + [s[15]] + s[16..18] + s[18..20];
  }

  /** IP4P is a bijection between (port, address) and the texts of its form: it parses back, and only it does. */
  lemma Ip4pRoundTrip(s: string, p: seq<byte>, q: seq<byte>)
    requires |p| == 2 && |q| == 4
    ensures ParseIp4p(s) == Some((Values(p), Values(q))) <==> s == Ip4p(p, q)
  {
    hide Hex2, IsHex2, ParseHex2, Ip4p, ByteValue;
    assert Values(p) == [ByteValue(p[0]), ByteValue(p[1])];
    assert Values(q) == [ByteValue(q[0]), ByteValue(q[1]), ByteValue(q[2]), ByteValue(q[3])];
    if |s| == 20 {
      Ip4pPieces(s, p, q);
      Hex2Back(s[6..8], p[0]);
      Hex2Back(s[8..10], p[1]);
      Hex2Back(s[11..13], q[0]);
      Hex2Back(s[13..15], q[1]);
      Hex2Back(s[16..18], q[2]);
      Hex2Back(s[18..20], q[3]);
    }
  }

  /** Two bindings print the same IP4P text only if port and address are the same. */
  lemma Ip4pInjective(p: seq<byte>, q: seq<byte>, p': seq<byte>, q': seq<byte>)
    requires |p| == |p'| == 2 && |q| == |q'| == 4
    ensures Ip4p(p, q) == Ip4p(p', q') <==> p == p' && q == q'
  {
    hide Ip4p, ParseIp4p, Values;
    Ip4pRoundTrip(Ip4p(p, q), p, q);
    Ip4pRoundTrip(Ip4p(p, q), p', q');
    ValuesInjective(p, p');
    ValuesInjective(q, q');
  }

  /** The static buffers of `src/hev-exec.c`, each of 32 bytes. */
  class Buffers {
    var oport: string
    var iport: string
    var ip4p: string

    constructor ()
      ensures oport == "" && iport == "" && ip4p == ""
    {
      oport, iport, ip4p := "", "", "";
    }

    /** `hev_exec_run`, the formatting. Ports and addresses come in network byte order. */
    method Run(e: Endian, family: Family, maddr: seq<bv32>, mport: bv16, bport: bv16)
      requires |maddr| == 4
      modifies this
      ensures ParseDecimal(oport) == Some(Ntohs(e, mport) as nat) && ParseDecimal(iport) == Some(Ntohs(e, bport) as nat)
      ensures family.Inet? ==> ParseIp4p(ip4p) == Some((Values(Store16(e, mport)), Values(AddrBytes(e, maddr)[..4])))
      ensures family.Inet6? ==> ip4p == ""
      ensures |ip4p| < 32
    {
      hide Ntohs, Store16, AddrBytes, Ip4p, ParseIp4p, Decimal, ParseDecimal, Values;
      oport, iport := Decimal(Ntohs(e, mport) as nat), Decimal(Ntohs(e, bport) as nat);
      DecimalBack(Ntohs(e, mport) as nat);
      DecimalBack(Ntohs(e, bport) as nat);
      if family == Inet {
        var p, q := Store16(e, mport), AddrBytes(e, maddr)[..4];
        ip4p := Ip4p(p, q);
        Ip4pRoundTrip(ip4p, p, q);
      } else {
        ip4p := "";
      }
    }
  }
}
