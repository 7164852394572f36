/** The numbers `snprintf` prints: `%u` and `%02x`. */
module Text {
  import opened Keys
  import opened Options

  function HexChar(d: nat): char
    requires d < 16
  {
    if d < 10 then ('0' as int + d) as char else ('a' as int + (d - 10)) as char
  }

  function HexValue(c: char): (v: int)
    ensures -1 <= v < 16
  {
    if '0' <= c <= '9' then c as int - '0' as int
    else if 'a' <= c <= 'f' then c as int - 'a' as int + 10
    else -1
  }

  lemma HexBack(c: char, d: nat)
    requires d < 16
    ensures HexValue(c) == d <==> c == HexChar(d)
  {}

  function ByteValue(b: byte): (n: nat)
    ensures n < 256
  {
    b as nat
  }

  lemma ByteValueInjective(a: byte, b: byte)
    ensures ByteValue(a) == ByteValue(b) <==> a == b
  {
    assert ByteValue(a) as byte == a && ByteValue(b) as byte == b;
  }

  /** `%02x`. */
  function Hex2(b: byte): (s: string)
    ensures |s| == 2
  {
    [HexChar(ByteValue(b) / 16), HexChar(ByteValue(b) % 16)]
  }

  predicate IsHex2(s: string) {
    |s| == 2 && HexValue(s[0]) >= 0 && HexValue(s[1]) >= 0
  }

  function ParseHex2(s: string): nat
    requires IsHex2(s)
  {
    16 * HexValue(s[0]) + HexValue(s[1])
  }

  lemma HexPair(c: char, d: char, n: nat)
    requires n < 256
    ensures c == HexChar(n / 16) && d == HexChar(n % 16) <==>
            HexValue(c) >= 0 && HexValue(d) >= 0 && 16 * HexValue(c) + HexValue(d) == n
  {
    HexBack(c, n / 16);
    HexBack(d, n % 16);
    hide HexChar, HexValue;
    if 16 * HexValue(c) + HexValue(d) == n && HexValue(c) >= 0 && HexValue(d) >= 0 {
      assert HexValue(c) == n / 16 && HexValue(d) == n % 16;
    }
  }

  /** Two hexadecimal digits spell one byte, and only its own two do. */
  lemma Hex2Back(s: string, b: byte)
    ensures s == Hex2(b) <==> IsHex2(s) && ParseHex2(s) == ByteValue(b)
  {
    hide ByteValue, HexChar, HexValue;
    if |s| == 2 {
      HexPair(s[0], s[1], ByteValue(b));
      assert s == [s[0], s[1]];
    }
  }

  /** `%u`. */
  function Decimal(n: nat): (s: string)
    ensures |s| > 0
  {
    if n < 10 then [HexChar(n)] else Decimal(n / 10) + [HexChar(n % 10)]
  }

  predicate IsDigit(c: char) {
    0 <= HexValue(c) < 10
  }

  /** The number a text spells in decimal, or nothing: digits only, at least one, no zero in front. */
  function ParseDecimal(s: string): Option<nat> {
    if s == [] || !IsDigit(s[|s| - 1]) then None
    else if |s| == 1 then Some(HexValue(s[0]))
    else if s[0] == '0' then None
    else
      match ParseDecimal(s[..|s| - 1])
      case None => None
      case Some(v) => Some(10 * v + HexValue(s[|s| - 1]))
  }

  lemma {:induction false} LeadingDigit(n: nat)
    ensures Decimal(n)[0] == '0' <==> n == 0
  {
    if n < 10 {
      HexBack('0', n);
    } else {
      LeadingDigit(n / 10);
    }
  }

  lemma {:induction false} DecimalBack(n: nat)
    ensures ParseDecimal(Decimal(n)) == Some(n)
  {
    HexBack(HexChar(n % 10), n % 10);
    if n >= 10 {
      DecimalBack(n / 10);
      LeadingDigit(n);
      assert Decimal(n)[..|Decimal(n)| - 1] == Decimal(n / 10);
    }
  }

  lemma {:induction false} ParseBack(s: string)
    ensures ParseDecimal(s).Some? ==> s == Decimal(ParseDecimal(s).value)
  {
    if ParseDecimal(s).Some? {
      var d := HexValue(s[|s| - 1]);
      HexBack(s[|s| - 1], d);
      if |s| > 1 {
        var front := s[..|s| - 1];
        ParseBack(front);
        var v := ParseDecimal(front).value;
        LeadingDigit(v);
        assert v > 0;
        assert (10 * v + d) / 10 == v && (10 * v + d) % 10 == d;
        assert s == front + [s[|s| - 1]];
      }
    }
  }

  /** A text spells a number if and only if it is what `%u` prints for it. */
  lemma {:induction false} DecimalRoundTrip(s: string, n: nat)
    ensures ParseDecimal(s) == Some(n) <==> s == Decimal(n)
  {
    ParseBack(s);
    DecimalBack(n);
  }

  /** Two numbers print alike only if they are equal. */
  lemma {:induction false} DecimalInjective(m: nat, n: nat)
    ensures Decimal(m) == Decimal(n) ==> m == n
  {
    DecimalBack(m);
    DecimalBack(n);
  }
}
