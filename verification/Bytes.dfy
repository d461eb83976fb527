/** Byte strings: big-endian integers and length-prefixed storage keys. */
module Bytes {
  import opened Ratios

  type Byte = b: int | 0 <= b < 256
  type Bytes = seq<Byte>

  function Pow256(k: nat): nat {
    if k == 0 then 1 else 256 * Pow256(k - 1)
  }

  /** The low `width` bytes of `n`, most significant first. */
  function ToBigEndian(n: nat, width: nat): (b: Bytes)
    ensures |b| == width
    decreases width
  {
    if width == 0 then [] else ToBigEndian(n / 256, width - 1) + [n % 256]
  }

  function FromBigEndian(b: Bytes): nat {
    if b == [] then 0 else FromBigEndian(b[..|b| - 1]) * 256 + b[|b| - 1]
  }

  lemma {:induction false} BigEndianRoundTrip(n: nat, width: nat)
    requires n < Pow256(width)
    ensures FromBigEndian(ToBigEndian(n, width)) == n
    decreases width
  {
    if width != 0 {
      BigEndianRoundTrip(n / 256, width - 1);
      var b := ToBigEndian(n, width);
      assert b[..|b| - 1] == ToBigEndian(n / 256, width - 1);
    }
  }

  /** A namespace behind its length in two bytes. */
  function ToLengthPrefixed(namespace: Bytes): Bytes
    requires |namespace| <= 0xFFFF
  {
    ToBigEndian(|namespace|, 2) + namespace
  }

  /** Length-prefixed namespaces can be told apart whatever follows them. */
  lemma PrefixDecodes(n1: Bytes, k1: Bytes, n2: Bytes, k2: Bytes)
    requires |n1| <= 0xFFFF && |n2| <= 0xFFFF
    requires ToLengthPrefixed(n1) + k1 == ToLengthPrefixed(n2) + k2
    ensures n1 == n2 && k1 == k2
  {
    var s, t := ToLengthPrefixed(n1) + k1, ToLengthPrefixed(n2) + k2;
    assert Pow256(2) == 0x1_0000;
    BigEndianRoundTrip(|n1|, 2);
    BigEndianRoundTrip(|n2|, 2);
    assert s[..2] == ToBigEndian(|n1|, 2) && t[..2] == ToBigEndian(|n2|, 2);
    assert n1 == s[2..2 + |n1|] && n2 == t[2..2 + |n2|];
    assert k1 == s[2 + |n1|..] && k2 == t[2 + |n2|..];
  }

  lemma DivideTwice(n: nat, p: nat)
    requires 0 < p
    ensures n / 256 / p == n / (256 * p)
  {
    var q, d := n / 256 / p, 256 * p;
    FloorRatio(n / 256, 1, p);
    assert q * d == 256 * (q * p);
    FloorIsGreatest(n, d, q);
    FloorWithin(n, d, q);
  }

  /** The most significant byte comes first. */
  lemma {:induction false} BigEndianAt(n: nat, width: nat, i: nat)
    requires i < width
    ensures Pow256(width - 1 - i) > 0 && ToBigEndian(n, width)[i] == n / Pow256(width - 1 - i) % 256
    decreases width
  {
    Pow256Positive(width - 1 - i);
    if i < width - 1 {
      BigEndianAt(n / 256, width - 1, i);
      DivideTwice(n, Pow256(width - 2 - i));
    }
  }

  lemma {:induction false} Pow256Positive(k: nat)
    ensures Pow256(k) > 0
  {
    if k > 0 {
      Pow256Positive(k - 1);
    }
  }

  /** The length comes first, high byte before low byte, then the namespace. */
  lemma PrefixLayout(namespace: Bytes)
    requires |namespace| <= 0xFFFF
    ensures var p := ToLengthPrefixed(namespace);
            |p| == |namespace| + 2 && p[0] == |namespace| / 256 && p[1] == |namespace| % 256 && p[2..] == namespace
  {
    BigEndianAt(|namespace|, 2, 0);
    BigEndianAt(|namespace|, 2, 1);
    assert Pow256(0) == 1 && Pow256(1) == 256;
  }
}
