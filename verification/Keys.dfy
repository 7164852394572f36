/** Socket addresses as the forwarder compares them: byte strings under `memcmp`. */
module Keys {
  type byte = bv8

  /** The significant bytes of a `struct sockaddr`. */
  type Key = seq<byte>

  /** The sign of `memcmp (a, b, |a|)`: the first differing byte decides, bytes compare unsigned. */
  function Memcmp(a: Key, b: Key): int
    requires |a| == |b|
  {
    if |a| == 0 then 0
    else if a[0] < b[0] then -1
    else if a[0] > b[0] then 1
    else Memcmp(a[1..], b[1..])
  }

  ghost function Pow256(n: nat): (p: nat)
    ensures p >= 1
  {
    if n == 0 then 1 else 256 * Pow256(n - 1)
  }

  /** A key read as one big-endian number. */
  ghost function Rank(k: Key): nat {
    if |k| == 0 then 0 else (k[0] as nat) * Pow256(|k| - 1) + Rank(k[1..])
  }

  lemma {:induction false} RankBound(k: Key)
    ensures Rank(k) < Pow256(|k|)
  {
    if |k| > 0 {
      RankBound(k[1..]);
      LeadingDigit(k[0] as nat, 256, Pow256(|k| - 1), Rank(k[1..]), 0);
    }
  }

  lemma ScaleMono(x: nat, y: nat, p: nat)
    requires x <= y
    ensures x * p <= y * p
  {}

  /** In base `p` the leading digit decides. */
  lemma LeadingDigit(x: nat, y: nat, p: nat, r: nat, q: nat)
    requires x < y && r < p
    ensures x * p + r < y * p + q
  {
    assert (x + 1) * p == x * p + p;
    ScaleMono(x + 1, y, p);
  }

  lemma ByteOrder(x: byte, y: byte)
    ensures x < y <==> x as nat < y as nat
    ensures x == y <==> x as nat == y as nat
  {}

  lemma {:induction false} HeadDecides(a: Key, b: Key)
    requires |a| == |b| > 0 && a[0] < b[0]
    ensures Rank(a) < Rank(b)
  {
    RankBound(a[1..]);
    ByteOrder(a[0], b[0]);
    LeadingDigit(a[0] as nat, b[0] as nat, Pow256(|a| - 1), Rank(a[1..]), Rank(b[1..]));
  }

  /** On keys of one length `memcmp` is the order of the numbers they spell. */
  lemma {:induction false} MemcmpIsRank(a: Key, b: Key)
    requires |a| == |b|
    ensures Memcmp(a, b) < 0 <==> Rank(a) < Rank(b)
    ensures Memcmp(a, b) > 0 <==> Rank(a) > Rank(b)
    ensures a == b <==> Rank(a) == Rank(b)
  {
    if |a| == 0 {
    } else if a[0] < b[0] {
      HeadDecides(a, b);
    } else if b[0] < a[0] {
      HeadDecides(b, a);
    } else {
      MemcmpIsRank(a[1..], b[1..]);
      assert a == [a[0]] + a[1..] && b == [b[0]] + b[1..];
    }
  }
}
