/** Totals of ledgers kept as maps, and of queues kept as sequences. */
module Sums {

  /** The amount if the condition holds, otherwise nothing. */
  function If(c: bool, amount: nat): nat {
    if c then amount else 0
  }

  /** The stored amount, or zero for a missing entry. */
  function Get<K>(m: map<K, nat>, k: K): nat {
    if k in m then m[k] else 0
  }

  ghost function Pick<K>(m: map<K, nat>): (k: K)
    requires m.Keys != {}
    ensures k in m
  {
    var k :| k in m;
    k
  }

  ghost function Sum<K>(m: map<K, nat>): nat
    decreases |m.Keys|
  {
    if m.Keys == {} then 0 else m[Pick(m)] + Sum(m - {Pick(m)})
  }

  /** The total does not depend on which entry is taken out first. */
  lemma {:induction false} SumSplit<K>(m: map<K, nat>, k: K)
    requires k in m
    ensures Sum(m) == m[k] + Sum(m - {k})
    decreases |m.Keys|
  {
    var first := Pick(m);
    if first != k {
      SumSplit(m - {first}, k);
      SumSplit(m - {k}, first);
      assert m - {first} - {k} == m - {k} - {first};
    }
  }

  lemma SumUpdate<K>(m: map<K, nat>, k: K, v: nat)
    ensures Sum(m[k := v]) == Sum(m) - Get(m, k) + v
  {
    var n := m[k := v];
    SumSplit(n, k);
    assert n - {k} == m - {k};
    if k in m {
      SumSplit(m, k);
    } else {
      assert m - {k} == m;
    }
  }

  lemma SumCoversEntry<K>(m: map<K, nat>, k: K)
    ensures Get(m, k) <= Sum(m)
  {
    if k in m {
      SumSplit(m, k);
    }
  }

  function SumSeq(s: seq<nat>): nat {
    if s == [] then 0 else s[0] + SumSeq(s[1..])
  }

  lemma {:induction false} SumSeqAppend(s: seq<nat>, t: seq<nat>)
    ensures SumSeq(s + t) == SumSeq(s) + SumSeq(t)
  {
    if s == [] {
      assert s + t == t;
    } else {
      SumSeqAppend(s[1..], t);
      assert (s + t)[1..] == s[1..] + t;
    }
  }

  /** Taking out entry `i` lowers the total by exactly that entry. */
  lemma SumSeqRemove(s: seq<nat>, i: nat)
    requires i < |s|
    ensures SumSeq(s) == s[i] + SumSeq(s[..i] + s[i + 1..])
  {
    SumSeqAppend(s[..i], s[i..]);
    SumSeqAppend(s[..i], s[i + 1..]);
    assert s == s[..i] + s[i..];
    assert s[i..][1..] == s[i + 1..];
  }
}
