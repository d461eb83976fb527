/** How many uSCRT a burn of ENG mints. `Dec` values are integers scaled by 10^18; every product truncates. */
module Minting {
  import opened Ratios

  const ONE: nat := 1_000_000_000_000_000_000
  /** 0.01: ENG has two decimals more than SCRT. */
  const CENT: nat := 10_000_000_000_000_000
  const TEN_20: nat := 100_000_000_000_000_000_000

  /** Nearest integer, halves to even, symmetric in the sign. */
  function RoundInt(d: int): int {
    if d < 0 then 0 - RoundNat(-d) as int else RoundNat(d)
  }

  function RoundNat(d: nat): nat {
    var quo, rem := d / ONE, d % ONE;
    if 2 * rem < ONE then quo
    else if 2 * rem > ONE then quo + 1
    else if quo % 2 == 0 then quo else quo + 1
  }

  /** Not zero, a whole number, at least 100. */
  predicate ValidAmount(d: int) {
    d != 0 && d == RoundInt(d) * ONE && d >= 100 * ONE
  }

  function MulTruncate(a: nat, b: nat): nat {
    a * b / ONE
  }

  function Minted(amount: int, multiplier: nat): nat
    requires ValidAmount(amount)
  {
    var coins := RoundInt(amount) * ONE;
    MulTruncate(MulTruncate(coins, CENT), multiplier) / ONE
  }

  /** Accepted amounts are exactly the whole numbers from 100 on. */
  lemma ValidAmountExact(d: int)
    ensures ValidAmount(d) <==> d % ONE == 0 && d / ONE >= 100
    ensures ValidAmount(d) ==> RoundInt(d) == d / ONE
  {
  }

  lemma DivideTwice(p: nat)
    ensures p * CENT / ONE / ONE == p / TEN_20
  {
  }

  /** The two truncations lose nothing beyond the last one. */
  lemma MintedExact(a: nat, multiplier: nat)
    requires 100 <= a
    ensures ValidAmount(a * ONE) && Minted(a * ONE, multiplier) == a * multiplier / TEN_20
  {
    ValidAmountExact(a * ONE);
    assert MulTruncate(a * ONE, CENT) == a * CENT;
    assert (a * CENT) * multiplier == (a * multiplier) * CENT;
    DivideTwice(a * multiplier);
  }

  /** ENG dust in a request that passes validation. */
  type Dust = a: nat | 100 <= a witness 100

  function MintedFor(a: Dust, multiplier: nat): nat {
    ValidAmountExact(a * ONE);
    Minted(a * ONE, multiplier)
  }

  lemma MintedMonotone(a: Dust, b: Dust, m: nat, n: nat)
    requires a <= b && m <= n
    ensures MintedFor(a, m) <= MintedFor(b, n)
  {
    MintedExact(a, m);
    MintedExact(b, n);
    MulMono(a, b, m);
    MulMono(m, n, b);
    assert a * m <= b * n;
    FloorMono(a * m, b * n, TEN_20);
  }

  /** With an allowed multiplier of at most 10, a burn mints at most a tenth of the ENG dust. */
  lemma MintedAtMostTenth(a: Dust, m: nat)
    requires m <= 10 * ONE
    ensures 10 * MintedFor(a, m) <= a
  {
    MintedExact(a, m);
    MulMono(m, 10 * ONE, a);
    assert a * m <= a * (10 * ONE);
  }

  function Total(amounts: seq<Dust>): nat {
    if amounts == [] then 0 else amounts[0] + Total(amounts[1..])
  }

  function MintedAll(amounts: seq<Dust>, m: nat): nat {
    if amounts == [] then 0 else MintedFor(amounts[0], m) + MintedAll(amounts[1..], m)
  }

  lemma SplitTwo(x: nat, y: nat)
    ensures x / TEN_20 + y / TEN_20 <= (x + y) / TEN_20 <= x / TEN_20 + y / TEN_20 + 1
  {
  }

  lemma SplitOff(a: Dust, b: Dust, m: nat)
    ensures MintedFor(a, m) + MintedFor(b, m) <= MintedFor(a + b, m) <= MintedFor(a, m) + MintedFor(b, m) + 1
  {
    MintedExact(a, m);
    MintedExact(b, m);
    MintedExact(a + b, m);
    assert (a + b) * m == a * m + b * m;
    SplitTwo(a * m, b * m);
  }

  /** Splitting a burn into k swaps mints at most what one swap would, and loses less than k. */
  lemma {:induction false} SplittingLoses(amounts: seq<Dust>, m: nat)
    requires amounts != []
    ensures 100 <= Total(amounts)
    ensures MintedAll(amounts, m) <= MintedFor(Total(amounts), m) <= MintedAll(amounts, m) + (|amounts| - 1)
  {
    var rest := amounts[1..];
    if rest == [] {
      assert Total(amounts) == amounts[0];
    } else {
      SplittingLoses(rest, m);
      SplitOff(amounts[0], Total(rest), m);
    }
  }
}
